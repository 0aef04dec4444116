/** The mirror of the order book under every interleaving: the Unique daemon may lag any number of calls behind the
    chain, be restarted at any point and pass over calls, and both daemons work at the same time. */
module BooksMirror {
  import opened Wrappers
  import opened Tables
  import opened Contract
  import opened ContractInvariants
  import opened EscrowIndex
  import opened EscrowBooks
  import opened AskMirror

  // ---------------------------------------------------------------- the calls in order

  /** The tables after the given calls, each scanned once. */
  function IndexOf(cfg: Config, calls: seq<Scan>): Index {
    if calls == [] then Index([], [])
    else IndexCall(IndexOf(cfg, calls[..|calls| - 1]), cfg, calls[|calls| - 1].entry)
  }

  lemma IndexOneMore(cfg: Config, calls: seq<Scan>, s: Scan)
    ensures IndexOf(cfg, calls + [s]) == IndexCall(IndexOf(cfg, calls), cfg, s.entry)
  {
    assert (calls + [s])[..|calls|] == calls;
  }

  lemma PrefixOneMore(cfg: Config, calls: seq<Scan>, k: nat)
    requires k < |calls|
    ensures IndexOf(cfg, calls[..k + 1]) == IndexCall(IndexOf(cfg, calls[..k]), cfg, calls[k].entry)
  {
    assert calls[..k + 1] == calls[..k] + [calls[k]];
    IndexOneMore(cfg, calls[..k], calls[k]);
  }

  lemma {:induction false} IndexOfIsClean(cfg: Config, calls: seq<Scan>)
    ensures Clean(IndexOf(cfg, calls), cfg)
  {
    if calls != [] {
      IndexOfIsClean(cfg, calls[..|calls| - 1]);
      CallKeepsClean(IndexOf(cfg, calls[..|calls| - 1]), cfg, calls[|calls| - 1].entry);
    }
  }

  predicate TouchedIn(calls: seq<Scan>, from: nat, c: nat, t: nat) {
    exists k :: from <= k < |calls| && Touches(calls[k].entry.call, c, t)
  }

  /** Calls that do not touch a token do not change what is shown for it. */
  lemma {:induction false} UntouchedView(cfg: Config, calls: seq<Scan>, from: nat, c: nat, t: nat)
    requires from <= |calls| && c in cfg.managed && !TouchedIn(calls, from, c, t)
    ensures TableView(IndexOf(cfg, calls).asks, c, t) == TableView(IndexOf(cfg, calls[..from]).asks, c, t)
  {
    var n := |calls| - 1;
    if from <= n {
      assert !TouchedIn(calls[..n], from, c, t) by {
        forall k | from <= k < n ensures !Touches(calls[..n][k].entry.call, c, t) {
          assert calls[..n][k] == calls[k];
        }
      }
      UntouchedView(cfg, calls[..n], from, c, t);
      assert calls[..n][..from] == calls[..from];
      IndexOfIsClean(cfg, calls[..n]);
      CallSetsView(IndexOf(cfg, calls[..n]), cfg, calls[n].entry, c, t);
    } else {
      assert calls[..from] == calls;
    }
  }

  // ---------------------------------------------------------------- the daemon's tables

  /** What the daemon shows for a token it has nothing left to scan about is what all calls in order show, unless
      the token's row is one that the administrator removed. */
  ghost predicate Follows(b: Books) {
    && b.scanned <= |b.calls|
    && Tidy(b.index, b.cfg)
    && forall c: nat, t: nat :: c in b.cfg.managed && !TouchedIn(b.calls, b.scanned, c, t) ==>
         HasRemoved(b.index.asks, c, t) || TableView(b.index.asks, c, t) == TableView(IndexOf(b.cfg, b.calls).asks, c, t)
  }

  lemma NewCallFollows(b: Books, s: Scan, b': Books)
    requires Follows(b) && b'.cfg == b.cfg && b'.index == b.index && b'.scanned == b.scanned && b'.calls == b.calls + [s]
    ensures Follows(b')
  {
    IndexOneMore(b.cfg, b.calls, s);
    IndexOfIsClean(b.cfg, b.calls);
    forall c: nat, t: nat | c in b.cfg.managed && !TouchedIn(b'.calls, b.scanned, c, t)
      ensures HasRemoved(b.index.asks, c, t) || TableView(b.index.asks, c, t) == TableView(IndexOf(b.cfg, b'.calls).asks, c, t)
    {
      assert b'.calls[|b.calls|] == s;
      forall k | b.scanned <= k < |b.calls| ensures !Touches(b.calls[k].entry.call, c, t) {
        assert b'.calls[k] == b.calls[k];
      }
      assert !TouchedIn(b.calls, b.scanned, c, t);
      CallSetsView(IndexOf(b.cfg, b.calls), b.cfg, s.entry, c, t);
    }
  }

  lemma OnChainFollows(b: Books, h: Happening)
    requires Follows(b)
    ensures Follows(AfterOnChain(b, h))
  {
    if Succeeds(b.market, h) {
      NewCallFollows(b, Scan(Entry(h.sender, b.cfg.market, h.now, h.call), Emitted(b.market, h.call)), AfterOnChain(b, h));
    }
  }

  /** The last call that touches a token decides what all calls show for it. */
  lemma LastTouchDecides(cfg: Config, calls: seq<Scan>, k: nat, c: nat, t: nat)
    requires k < |calls| && c in cfg.managed && Touches(calls[k].entry.call, c, t) && !TouchedIn(calls, k + 1, c, t)
    ensures TableView(IndexOf(cfg, calls).asks, c, t) == ShownAfter(cfg, calls[k].entry)
  {
    UntouchedView(cfg, calls, k + 1, c, t);
    PrefixOneMore(cfg, calls, k);
    IndexOfIsClean(cfg, calls[..k]);
    CallSetsView(IndexOf(cfg, calls[..k]), cfg, calls[k].entry, c, t);
  }

  lemma ScanShows(b: Books, c: nat, t: nat)
    requires Follows(b) && b.scanned < |b.calls| && c in b.cfg.managed && !TouchedIn(b.calls, b.scanned + 1, c, t)
    ensures var asks' := IndexCall(b.index, b.cfg, b.calls[b.scanned].entry).asks;
            HasRemoved(asks', c, t) || TableView(asks', c, t) == TableView(IndexOf(b.cfg, b.calls).asks, c, t)
  {
    CallSetsViewOrRemoved(b.index, b.cfg, b.calls[b.scanned].entry, c, t);
    if Touches(b.calls[b.scanned].entry.call, c, t) {
      LastTouchDecides(b.cfg, b.calls, b.scanned, c, t);
    } else {
      assert !TouchedIn(b.calls, b.scanned, c, t);
    }
  }

  lemma ScanFollows(b: Books)
    requires Follows(b) && b.scanned < |b.calls|
    ensures Follows(AfterScan(b))
  {
    var asks' := IndexCall(b.index, b.cfg, b.calls[b.scanned].entry).asks;
    CallKeepsClean(b.index, b.cfg, b.calls[b.scanned].entry);
    forall c: nat, t: nat | c in b.cfg.managed && !TouchedIn(b.calls, b.scanned + 1, c, t)
      ensures HasRemoved(asks', c, t) || TableView(asks', c, t) == TableView(IndexOf(b.cfg, b.calls).asks, c, t)
    {
      ScanShows(b, c, t);
    }
  }

  lemma {:induction false} RemovalFindsSame(asks: seq<Ask>, admin: Address, c: nat, t: nat)
    ensures FindLive(RemoveByAdmin(asks, admin), c, t) == FindLive(asks, c, t)
  {
    if asks != [] {
      var n := |asks| - 1;
      RemovalFindsSame(asks[..n], admin, c, t);
      assert RemoveByAdmin(asks, admin)[..n] == RemoveByAdmin(asks[..n], admin);
    }
  }

  /** A mass removal leaves what is shown as it is, or leaves it to a removed row. */
  lemma RemovalFollows(b: Books, admin: Address)
    requires Follows(b)
    ensures Follows(Step(b, AdminRemoval(admin)))
  {
    var asks, asks' := b.index.asks, RemoveByAdmin(b.index.asks, admin);
    OneLiveShrinks(asks, asks');
    forall c: nat, t: nat ensures HasRemoved(asks', c, t) || (TableView(asks', c, t) == TableView(asks, c, t) && !HasRemoved(asks, c, t)) {
      RemovalFindsSame(asks, admin, c, t);
    }
  }

  /** Reading again from an earlier call only leaves more to scan. */
  lemma CrashFollows(b: Books, rewind: nat)
    requires Follows(b)
    ensures Follows(Step(b, UniqueCrash(rewind)))
  {
    var b' := Step(b, UniqueCrash(rewind));
    forall c: nat, t: nat | c in b.cfg.managed && !TouchedIn(b.calls, b'.scanned, c, t)
      ensures !TouchedIn(b.calls, b.scanned, c, t)
    {}
  }

  lemma WorkFollows(b: Books, choice: nat, landed: bool)
    requires Follows(b)
    ensures Follows(AfterUniqueWork(b, choice, landed)) && Follows(AfterKusamaWork(b, choice, landed))
  {
    var b1, b2 := AfterUniqueWork(b, choice, landed), AfterKusamaWork(b, choice, landed);
    assert b1.calls == b.calls && b1.scanned == b.scanned && b1.index == b.index && b1.cfg == b.cfg;
    assert b2.calls == b.calls && b2.scanned == b.scanned && b2.index == b.index && b2.cfg == b.cfg;
  }

  /** A call that the daemon passes over is followed by another one on its token, or shows what the table shows. */
  predicate SkipsSafely(b: Books, e: Event) {
    e.SkipCall? && b.unique == Free && b.scanned < |b.calls| ==>
      var entry := b.calls[b.scanned].entry;
      entry.call.AddAsk? || entry.call.CancelAsk? || entry.call.BuyKSM? ==>
        var c, t := IdOf(entry.call.nft.collection), entry.call.nft.id;
        c in b.cfg.managed && !TouchedIn(b.calls, b.scanned + 1, c, t) ==>
          HasRemoved(b.index.asks, c, t) || TableView(b.index.asks, c, t) == ShownAfter(b.cfg, entry)
  }

  lemma SkipFollowsIff(b: Books)
    requires Follows(b) && b.unique == Free && b.scanned < |b.calls|
    ensures Follows(Step(b, SkipCall)) <==> SkipsSafely(b, SkipCall)
  {
    var entry := b.calls[b.scanned].entry;
    forall c: nat, t: nat | c in b.cfg.managed && !TouchedIn(b.calls, b.scanned + 1, c, t)
      ensures Touches(entry.call, c, t) ==> TableView(IndexOf(b.cfg, b.calls).asks, c, t) == ShownAfter(b.cfg, entry)
      ensures !Touches(entry.call, c, t) ==> !TouchedIn(b.calls, b.scanned, c, t)
    {
      if Touches(entry.call, c, t) {
        LastTouchDecides(b.cfg, b.calls, b.scanned, c, t);
      }
    }
  }

  lemma StepFollowsIff(b: Books, e: Event)
    requires Follows(b)
    ensures Follows(Step(b, e)) <==> SkipsSafely(b, e)
  {
    match e
    case SkipCall => if b.unique == Free && b.scanned < |b.calls| { SkipFollowsIff(b); }
    case OnChain(h) => OnChainFollows(b, h);
    case Foreign(entry) => if entry.target != b.cfg.market { NewCallFollows(b, Scan(entry, 0), AfterForeign(b, entry)); }
    case ScanCall => if b.unique == Free && b.scanned < |b.calls| { ScanFollows(b); }
    case AdminRemoval(admin) => RemovalFollows(b, admin);
    case UniqueCrash(rewind) => CrashFollows(b, rewind);
    case UniqueWork(choice, landed) => WorkFollows(b, choice, landed);
    case KusamaWork(choice, landed) => WorkFollows(b, choice, landed);
    case _ =>
  }

  ghost predicate SkippedSafely(b: Books, events: seq<Event>) {
    forall n :: 0 <= n < |events| ==> SkipsSafely(RunBooks(b, events[..n]), events[n])
  }

  lemma {:induction false} FollowsUpTo(b: Books, events: seq<Event>, n: nat)
    requires Opened(b) && SkippedSafely(b, events) && n <= |events|
    ensures Follows(RunBooks(b, events[..n]))
  {
    if n > 0 {
      FollowsUpTo(b, events, n - 1);
      assert events[..n][..n - 1] == events[..n - 1];
      StepFollowsIff(RunBooks(b, events[..n - 1]), events[n - 1]);
    }
  }

  lemma RunFollows(b: Books, events: seq<Event>)
    requires Opened(b) && SkippedSafely(b, events)
    ensures Follows(RunBooks(b, events))
  {
    FollowsUpTo(b, events, |events|);
    assert events[..|events|] == events;
  }

  /** However the daemon lags and restarts, all through a run it shows what the calls in order show, as far as it has
      nothing left to scan, exactly when every call it passes over is one it can do without. */
  lemma FollowsThroughoutIff(b: Books, events: seq<Event>)
    requires Opened(b)
    ensures (forall n :: 0 <= n <= |events| ==> Follows(RunBooks(b, events[..n]))) <==> SkippedSafely(b, events)
  {
    if SkippedSafely(b, events) {
      forall n | 0 <= n <= |events| ensures Follows(RunBooks(b, events[..n])) {
        FollowsUpTo(b, events, n);
      }
    }
    if forall n :: 0 <= n <= |events| ==> Follows(RunBooks(b, events[..n])) {
      forall n | 0 <= n < |events| ensures SkipsSafely(RunBooks(b, events[..n]), events[n]) {
        assert Follows(RunBooks(b, events[..n])) && Follows(RunBooks(b, events[..n + 1]));
        assert events[..n + 1][..n] == events[..n];
        StepFollowsIff(RunBooks(b, events[..n]), events[n]);
      }
    }
  }

  /** Whenever the daemon has caught up with the chain it shows what the calls show when each is scanned once and in
      order, whatever the calls are and however often it was restarted, except for rows that the administrator has
      removed since, if it could do without the calls it passed over. */
  lemma CaughtUpShowsCallsInOrder(b: Books, events: seq<Event>, c: nat, t: nat)
    requires Opened(b) && SkippedSafely(b, events)
    requires RunBooks(b, events).scanned == |RunBooks(b, events).calls| && c in RunBooks(b, events).cfg.managed
    ensures var b' := RunBooks(b, events);
            HasRemoved(b'.index.asks, c, t) || TableView(b'.index.asks, c, t) == TableView(IndexOf(b'.cfg, b'.calls).asks, c, t)
  {
    RunFollows(b, events);
    assert !TouchedIn(RunBooks(b, events).calls, |RunBooks(b, events).calls|, c, t);
  }

  // ---------------------------------------------------------------- the calls in order and the order book

  /** All calls in order show the present order book. */
  ghost predicate InStep(b: Books) {
    Mirrored(IndexOf(b.cfg, b.calls), b.market, b.cfg)
  }

  /** The condition on an event: the one of what happens on the chain; the daemons themselves meet it always. */
  predicate KeepsInStep(b: Books, e: Event) {
    match e
    case OnChain(h) => KeepsMirror(IndexOf(b.cfg, b.calls), b.market, b.cfg, Local(h))
    case Foreign(entry) => KeepsMirror(IndexOf(b.cfg, b.calls), b.market, b.cfg, Elsewhere(entry))
    case _ => true
  }

  /** The daemon's own transactions change balances only. */
  lemma BalanceChangeKeepsBook(m: Market, operator: Address, t: Transfer)
    requires BalanceChange(m, operator, t).Some?
    ensures var m' := BalanceChange(m, operator, t).value;
            SameOrders(m, m') && m'.owners == m.owners
  {
  }

  lemma SubmitKeepsBook(b: Books, row: nat, after: Option<Payout>, landed: bool)
    requires Inv(b.market) && row < |b.transfers|
    ensures var m' := AfterSubmit(b, row, after, landed).market;
            Inv(m') && m'.orders == b.market.orders && m'.asks == b.market.asks
  {
    var change := BalanceChange(b.market, b.operator, b.transfers[row]);
    if landed && change.Some? {
      BalanceChangeKeepsBook(b.market, b.operator, b.transfers[row]);
      SameOrdersKeep(b.market, change.value);
    }
  }

  lemma UniqueWorkKeepsBook(b: Books, choice: nat, landed: bool)
    requires Inv(b.market)
    ensures var m' := AfterUniqueWork(b, choice, landed).market;
            Inv(m') && m'.orders == b.market.orders && m'.asks == b.market.asks
  {
    if b.unique.Sending? && b.unique.row < |b.transfers| {
      SubmitKeepsBook(b, b.unique.row, b.unique.after, landed);
    }
  }

  lemma OtherwiseSameMarket(b: Books, e: Event)
    requires !e.OnChain? && !e.UniqueWork?
    ensures Step(b, e).market == b.market
  {
  }

  /** What a step of the daemons, and not of the chain, does to the market. */
  lemma DaemonKeepsBook(b: Books, e: Event)
    requires Inv(b.market) && !e.OnChain?
    ensures var m' := Step(b, e).market;
            Inv(m') && m'.orders == b.market.orders && m'.asks == b.market.asks
  {
    if e.UniqueWork? {
      UniqueWorkKeepsBook(b, e.choice, e.landed);
    } else {
      OtherwiseSameMarket(b, e);
    }
  }

  lemma {:induction false} RunKeepsInv(b: Books, events: seq<Event>)
    requires Opened(b)
    ensures Inv(RunBooks(b, events).market) && RunBooks(b, events).cfg == b.cfg
  {
    RunKeeps(b.market, []);
    if events != [] {
      var before, e := RunBooks(b, events[..|events| - 1]), events[|events| - 1];
      RunKeepsInv(b, events[..|events| - 1]);
      if e.OnChain? {
        NextKeeps(before.market, e.h);
      } else {
        DaemonKeepsBook(before, e);
      }
    }
  }

  lemma SameBookMirrored(ix: Index, m: Market, m': Market, cfg: Config)
    requires m'.orders == m.orders && m'.asks == m.asks
    ensures Mirrored(ix, m, cfg) <==> Mirrored(ix, m', cfg)
  {
    forall c: nat, t: nat ensures BookView(m', c, t) == BookView(m, c, t) {}
  }

  lemma OnChainInStepIff(b: Books, h: Happening)
    requires Inv(b.market) && ManagedIds(b.cfg) && InStep(b)
    ensures InStep(AfterOnChain(b, h)) <==> KeepsInStep(b, OnChain(h))
  {
    MirrorKeptIff(IndexOf(b.cfg, b.calls), b.market, b.cfg, Local(h));
    if Succeeds(b.market, h) {
      IndexOneMore(b.cfg, b.calls, Scan(EntryOf(b.cfg, h), Emitted(b.market, h.call)));
    }
  }

  lemma ForeignInStepIff(b: Books, entry: Entry)
    requires Inv(b.market) && ManagedIds(b.cfg) && InStep(b)
    ensures InStep(AfterForeign(b, entry)) <==> KeepsInStep(b, Foreign(entry))
  {
    MirrorKeptIff(IndexOf(b.cfg, b.calls), b.market, b.cfg, Elsewhere(entry));
    if entry.target != b.cfg.market {
      IndexOneMore(b.cfg, b.calls, Scan(entry, 0));
    }
  }

  lemma StepInStepIff(b: Books, e: Event)
    requires Inv(b.market) && ManagedIds(b.cfg) && InStep(b)
    ensures InStep(Step(b, e)) <==> KeepsInStep(b, e)
  {
    match e
    case OnChain(h) => OnChainInStepIff(b, h);
    case Foreign(entry) => ForeignInStepIff(b, entry);
    case _ =>
      DaemonKeepsBook(b, e);
      SameBookMirrored(IndexOf(b.cfg, b.calls), b.market, Step(b, e).market, b.cfg);
      assert Step(b, e).calls == b.calls && Step(b, e).cfg == b.cfg;
  }

  lemma {:induction false} RunInStep(b: Books, events: seq<Event>, n: nat)
    requires Opened(b) && ManagedIds(b.cfg) && n <= |events|
    requires forall k :: 0 <= k < |events| ==> KeepsInStep(RunBooks(b, events[..k]), events[k])
    ensures InStep(RunBooks(b, events[..n]))
  {
    if n == 0 {
      StartsMirrored(b.market, b.cfg);
    } else {
      RunInStep(b, events, n - 1);
      RunKeepsInv(b, events[..n - 1]);
      assert events[..n][..n - 1] == events[..n - 1];
      StepInStepIff(RunBooks(b, events[..n - 1]), events[n - 1]);
    }
  }

  /** The calls in order show the order book after every step of a run exactly when every event meets its condition. */
  lemma InStepThroughoutIff(b: Books, events: seq<Event>)
    requires Opened(b) && ManagedIds(b.cfg)
    ensures (forall n :: 0 <= n <= |events| ==> InStep(RunBooks(b, events[..n])))
            <==> (forall n :: 0 <= n < |events| ==> KeepsInStep(RunBooks(b, events[..n]), events[n]))
  {
    if forall n :: 0 <= n < |events| ==> KeepsInStep(RunBooks(b, events[..n]), events[n]) {
      forall n | 0 <= n <= |events| ensures InStep(RunBooks(b, events[..n])) {
        RunInStep(b, events, n);
      }
    }
    if forall n :: 0 <= n <= |events| ==> InStep(RunBooks(b, events[..n])) {
      forall n | 0 <= n < |events| ensures KeepsInStep(RunBooks(b, events[..n]), events[n]) {
        assert InStep(RunBooks(b, events[..n])) && InStep(RunBooks(b, events[..n + 1]));
        assert events[..n + 1][..n] == events[..n];
        RunKeepsInv(b, events[..n]);
        StepInStepIff(RunBooks(b, events[..n]), events[n]);
      }
    }
  }

  /** Whenever the daemon has caught up with the chain, its offers are the open orders of the managed collections
      exactly if all calls in order show the order book and no row is left removed by the administrator. */
  lemma CaughtUpMirrorsIff(b: Books, events: seq<Event>)
    requires Opened(b) && SkippedSafely(b, events) && RunBooks(b, events).scanned == |RunBooks(b, events).calls|
    ensures var b' := RunBooks(b, events);
            Mirrored(b'.index, b'.market, b'.cfg) <==> InStep(b') && NoneRemoved(b'.index)
  {
    var b' := RunBooks(b, events);
    RunFollows(b, events);
    IndexOfIsClean(b'.cfg, b'.calls);
    if NoneRemoved(b'.index) {
      forall c: nat, t: nat | c in b'.cfg.managed
        ensures TableView(b'.index.asks, c, t) == TableView(IndexOf(b'.cfg, b'.calls).asks, c, t)
      {
        CaughtUpShowsCallsInOrder(b, events, c, t);
      }
    }
  }

  /** So if everything on the chain met the condition stated for it, whatever the daemons are in the middle of and
      however often they were restarted, only rows left removed keep table and order book apart. */
  lemma CaughtUpTablesMirror(b: Books, events: seq<Event>)
    requires Opened(b) && ManagedIds(b.cfg) && SkippedSafely(b, events)
    requires forall k :: 0 <= k < |events| ==> KeepsInStep(RunBooks(b, events[..k]), events[k])
    requires RunBooks(b, events).scanned == |RunBooks(b, events).calls|
    ensures var b' := RunBooks(b, events);
            Mirrored(b'.index, b'.market, b'.cfg) <==> NoneRemoved(b'.index)
  {
    RunInStep(b, events, |events|);
    assert events[..|events|] == events;
    CaughtUpMirrorsIff(b, events);
  }
}
