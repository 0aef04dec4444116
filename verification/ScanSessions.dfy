/** The sessions of a daemon over the run of the service: restarts, turns of the main loop, and the blocks that other
    services record in between. Every block of these chains sets a timestamp. */
module ScanSessions {
  import opened Wrappers
  import opened Scanning

  /** current: this.store.currentBlock. first: the first block visited, log: the blocks extracted since. */
  datatype Walk<S> = Walk(store: Store<S>, current: nat, first: Option<nat>, log: seq<nat>)

  datatype Turn =
    | Start(head: nat)             // a session starts; head is the newest block of the chain
    | Next                         // a turn of the main loop
    | Record(n: nat, now: nat)     // another service records a block

  lemma {:induction false} LastExists(blocks: map<nat, nat>)
    ensures exists last: Option<nat> :: IsLast(blocks, last)
    decreases |blocks|
  {
    if blocks == map[] {
      assert IsLast(blocks, None);
    } else {
      var n :| n in blocks;
      var rest := map k | k in blocks && k != n :: blocks[k];
      assert rest.Keys == blocks.Keys - {n};
      assert |rest| == |rest.Keys| && |blocks| == |blocks.Keys|;
      LastExists(rest);
      var last: Option<nat> :| IsLast(rest, last);
      var most := if last.Some? && last.value > n then last.value else n;
      assert forall k :: k in blocks ==> k == n || k in rest;
      assert last.None? ==> rest == map[];
      assert IsLast(blocks, Some(most));
    }
  }

  ghost function LastOf(blocks: map<nat, nat>): (last: Option<nat>)
    ensures IsLast(blocks, last)
  {
    LastExists(blocks);
    var last: Option<nat> :| IsLast(blocks, last);
    last
  }

  ghost function AfterTurn<S, X>(chain: Chain<X>, extract: Extract<S, X>, mode: StartMode, w: Walk<S>, turn: Turn): Walk<S> {
    match turn
    case Start(head) => w.(current := StartBlock(mode, LastOf(w.store.blocks), head))
    case Next =>
      Walk(AfterBlock(chain, extract, w.store, w.current, false), w.current + 1,
           if w.first.None? then Some(w.current) else w.first,
           if w.current in w.store.blocks then w.log else w.log + [w.current])
    case Record(n, now) => w.(store := AfterAct(chain, extract, w.store, Noted(n, now)))
  }

  ghost function WalkOn<S, X>(chain: Chain<X>, extract: Extract<S, X>, mode: StartMode, w: Walk<S>, turns: seq<Turn>): Walk<S> {
    if turns == [] then w
    else AfterTurn(chain, extract, mode, WalkOn(chain, extract, mode, w, turns[..|turns| - 1]), turns[|turns| - 1])
  }

  function Fresh<S>(tables: S): Walk<S> {
    Walk(Store(tables, map[]), 0, None, [])
  }

  /** The walk after the first k turns of a run. */
  ghost function At<S, X>(chain: Chain<X>, extract: Extract<S, X>, mode: StartMode, tables: S, turns: seq<Turn>, k: nat): Walk<S>
    requires k <= |turns|
  {
    WalkOn(chain, extract, mode, Fresh(tables), turns[..k])
  }

  lemma AtNext<S, X>(chain: Chain<X>, extract: Extract<S, X>, mode: StartMode, tables: S, turns: seq<Turn>, k: nat)
    requires k < |turns|
    ensures At(chain, extract, mode, tables, turns, k + 1)
         == AfterTurn(chain, extract, mode, At(chain, extract, mode, tables, turns, k), turns[k])
  {
    assert turns[..k + 1][..k] == turns[..k];
  }

  lemma WalkPush<S, X>(chain: Chain<X>, extract: Extract<S, X>, mode: StartMode, w: Walk<S>, turns: seq<Turn>, turn: Turn)
    ensures WalkOn(chain, extract, mode, w, turns + [turn])
         == AfterTurn(chain, extract, mode, WalkOn(chain, extract, mode, w, turns), turn)
  {
    assert (turns + [turn])[..|turns|] == turns;
  }

  function Session(head: nat, turns: nat): seq<Turn> {
    if turns == 0 then [Start(head)] else Session(head, turns - 1) + [Next]
  }

  lemma SessionStarts<S, X>(chain: Chain<X>, extract: Extract<S, X>, mode: StartMode, w: Walk<S>, head: nat)
    ensures var after := WalkOn(chain, extract, mode, w, Session(head, 0));
            after.current == StartBlock(mode, LastOf(w.store.blocks), head) && after.store == w.store
  {
    WalkPush(chain, extract, mode, w, [], Start(head));
    assert [] + [Start(head)] == [Start(head)];
  }

  lemma SessionGoesOn<S, X>(chain: Chain<X>, extract: Extract<S, X>, mode: StartMode, w: Walk<S>, head: nat, turns: nat)
    requires turns > 0
    ensures var before, after := WalkOn(chain, extract, mode, w, Session(head, turns - 1)), WalkOn(chain, extract, mode, w, Session(head, turns));
            after.current == before.current + 1 && after.store == AfterBlock(chain, extract, before.store, before.current, false)
  {
    WalkPush(chain, extract, mode, w, Session(head, turns - 1), Next);
  }

  lemma {:induction false} SessionFrom<S, X>(chain: Chain<X>, extract: Extract<S, X>, mode: StartMode, w: Walk<S>, head: nat, turns: nat,
                           start: nat)
    requires start == StartBlock(mode, LastOf(w.store.blocks), head)
    ensures WalkOn(chain, extract, mode, w, Session(head, turns)).current == start + turns
    ensures WalkOn(chain, extract, mode, w, Session(head, turns)).store == Visit(chain, extract, w.store, Range(start, turns))
  {
    if turns == 0 {
      SessionStarts(chain, extract, mode, w, head);
      assert Range(start, 0) == [];
    } else {
      var before := WalkOn(chain, extract, mode, w, Session(head, turns - 1));
      SessionFrom(chain, extract, mode, w, head, turns - 1, start);
      assert before.current == start + turns - 1;
      SessionGoesOn(chain, extract, mode, w, head, turns);
      VisitRangeEnd(chain, extract, w.store, start, turns);
    }
  }

  /** A session of so many turns does what the work method of the base class does. */
  lemma SessionIsWork<S, X>(chain: Chain<X>, extract: Extract<S, X>, mode: StartMode, w: Walk<S>, head: nat, turns: nat)
    ensures var start, after := StartBlock(mode, LastOf(w.store.blocks), head), WalkOn(chain, extract, mode, w, Session(head, turns));
            after.current == start + turns && after.store == Visit(chain, extract, w.store, Range(start, turns))
  {
    SessionFrom(chain, extract, mode, w, head, turns, StartBlock(mode, LastOf(w.store.blocks), head));
  }

  // ---------------------------------------------------------------- one pass

  /** The tables are those of extracting the logged blocks, and these count as scanned. */
  ghost predicate Logged<S, X>(chain: Chain<X>, extract: Extract<S, X>, tables: S, w: Walk<S>) {
    && w.store.tables == Pass(chain, extract, tables, w.log)
    && forall n :: n in w.log ==> n in w.store.blocks
  }

  lemma TurnKeepsLogged<S, X>(chain: Chain<X>, extract: Extract<S, X>, mode: StartMode, tables: S, w: Walk<S>, turn: Turn)
    requires AllTimed(chain) && Logged(chain, extract, tables, w)
    ensures Logged(chain, extract, tables, AfterTurn(chain, extract, mode, w, turn))
  {
    if turn.Next? {
      assert Timed(chain, w.current);
      PassOneMore(chain, extract, tables, w.log, w.current);
    }
  }

  lemma {:induction false} RunKeepsLogged<S, X>(chain: Chain<X>, extract: Extract<S, X>, mode: StartMode, tables: S, turns: seq<Turn>)
    requires AllTimed(chain)
    ensures Logged(chain, extract, tables, WalkOn(chain, extract, mode, Fresh(tables), turns))
  {
    if turns != [] {
      var before := turns[..|turns| - 1];
      RunKeepsLogged(chain, extract, mode, tables, before);
      TurnKeepsLogged(chain, extract, mode, tables, WalkOn(chain, extract, mode, Fresh(tables), before), turns[|turns| - 1]);
    }
  }

  /** From the first block visited on, every block was extracted once and in order, up to where the daemon stands. */
  predicate OnePass<S>(w: Walk<S>) {
    match w.first
    case None => w.log == []
    case Some(f) => w.log != [] && w.log == Range(f, |w.log|) && f <= w.current <= f + |w.log|
  }

  /** A session starts with no recorded block beyond the end of what was extracted (in the mode latest, it starts at or
      before that end), and the daemon does not come to a block at that end that another service recorded. */
  ghost predicate KeepsOnePass<S>(mode: StartMode, w: Walk<S>, turn: Turn) {
    match turn
    case Start(head) =>
      w.first.Some? ==>
        if mode.FromLatest? then w.first.value <= TenBefore(head) <= w.first.value + |w.log|
        else forall n :: n in w.store.blocks ==> n <= w.first.value + |w.log|
    case Next => w.current in w.store.blocks ==> w.first.Some? && w.current < w.first.value + |w.log|
    case Record(_, _) => true
  }

  lemma {:induction false} RangeHas(from: nat, count: nat, n: nat)
    ensures n in Range(from, count) <==> from <= n < from + count
  {
    if count > 0 {
      RangeHas(from, count - 1, n);
    }
  }

  lemma StartKeepsOnePassIff<S, X>(chain: Chain<X>, extract: Extract<S, X>, mode: StartMode, tables: S, w: Walk<S>, head: nat)
    requires Logged(chain, extract, tables, w) && OnePass(w)
    ensures OnePass(AfterTurn(chain, extract, mode, w, Start(head))) <==> KeepsOnePass(mode, w, Start(head))
  {
    if w.first.Some? {
      var f := w.first.value;
      RangeHas(f, |w.log|, f);
      assert f in w.store.blocks;
      var last := LastOf(w.store.blocks);
      assert last.Some? && f <= last.value;
    }
  }

  lemma NextKeepsOnePassIff<S, X>(chain: Chain<X>, extract: Extract<S, X>, mode: StartMode, tables: S, w: Walk<S>)
    requires Logged(chain, extract, tables, w) && OnePass(w)
    ensures OnePass(AfterTurn(chain, extract, mode, w, Next)) <==> KeepsOnePass(mode, w, Next)
  {
    if w.first.Some? {
      RangeHas(w.first.value, |w.log|, w.current);
    } else {
      assert Range(w.current, 1) == Range(w.current, 0) + [w.current];
    }
  }

  /** From one pass, a turn leads to one pass exactly when it meets its condition. */
  lemma TurnKeepsOnePassIff<S, X>(chain: Chain<X>, extract: Extract<S, X>, mode: StartMode, tables: S, w: Walk<S>, turn: Turn)
    requires Logged(chain, extract, tables, w) && OnePass(w)
    ensures OnePass(AfterTurn(chain, extract, mode, w, turn)) <==> KeepsOnePass(mode, w, turn)
  {
    match turn
    case Start(head) => StartKeepsOnePassIff(chain, extract, mode, tables, w, head);
    case Next => NextKeepsOnePassIff(chain, extract, mode, tables, w);
    case Record(_, _) =>
  }

  lemma {:induction false} KeptUpTo<S, X>(chain: Chain<X>, extract: Extract<S, X>, mode: StartMode, tables: S, turns: seq<Turn>, k: nat)
    requires AllTimed(chain) && k <= |turns|
    requires forall j :: 0 <= j < k ==> KeepsOnePass(mode, At(chain, extract, mode, tables, turns, j), turns[j])
    ensures OnePass(At(chain, extract, mode, tables, turns, k))
  {
    if k > 0 {
      KeptUpTo(chain, extract, mode, tables, turns, k - 1);
      AtNext(chain, extract, mode, tables, turns, k - 1);
      RunKeepsLogged(chain, extract, mode, tables, turns[..k - 1]);
      TurnKeepsOnePassIff(chain, extract, mode, tables, At(chain, extract, mode, tables, turns, k - 1), turns[k - 1]);
    }
  }

  /** Over any run of sessions and of blocks recorded by other services, the daemon makes one pass exactly when every
      turn meets its condition. */
  lemma SessionsAreOnePassIff<S, X>(chain: Chain<X>, extract: Extract<S, X>, mode: StartMode, tables: S, turns: seq<Turn>)
    requires AllTimed(chain)
    ensures (forall k :: 0 <= k <= |turns| ==> OnePass(At(chain, extract, mode, tables, turns, k)))
            <==> forall k :: 0 <= k < |turns| ==> KeepsOnePass(mode, At(chain, extract, mode, tables, turns, k), turns[k])
  {
    if forall k :: 0 <= k <= |turns| ==> OnePass(At(chain, extract, mode, tables, turns, k)) {
      forall k | 0 <= k < |turns| ensures KeepsOnePass(mode, At(chain, extract, mode, tables, turns, k), turns[k]) {
        AtNext(chain, extract, mode, tables, turns, k);
        RunKeepsLogged(chain, extract, mode, tables, turns[..k]);
        assert OnePass(At(chain, extract, mode, tables, turns, k)) && OnePass(At(chain, extract, mode, tables, turns, k + 1));
        TurnKeepsOnePassIff(chain, extract, mode, tables, At(chain, extract, mode, tables, turns, k), turns[k]);
      }
    }
    if forall k :: 0 <= k < |turns| ==> KeepsOnePass(mode, At(chain, extract, mode, tables, turns, k), turns[k]) {
      forall k | 0 <= k <= |turns| ensures OnePass(At(chain, extract, mode, tables, turns, k)) {
        KeptUpTo(chain, extract, mode, tables, turns, k);
      }
    }
  }

  /** One pass leaves the tables of extracting each block from the first on once, in the order of the chain. */
  lemma OnePassTables<S, X>(chain: Chain<X>, extract: Extract<S, X>, mode: StartMode, tables: S, turns: seq<Turn>)
    requires AllTimed(chain) && OnePass(WalkOn(chain, extract, mode, Fresh(tables), turns))
    ensures var w := WalkOn(chain, extract, mode, Fresh(tables), turns);
            w.first.Some? ==> w.store.tables == Pass(chain, extract, tables, Range(w.first.value, |w.log|))
                              && w.current <= w.first.value + |w.log|
  {
    RunKeepsLogged(chain, extract, mode, tables, turns);
  }

  // ---------------------------------------------------------------- a fixed start, or current

  /** Nothing is recorded beyond the end of what was extracted. */
  ghost predicate NothingAhead<S>(w: Walk<S>) {
    match w.first
    case None => w.store.blocks == map[]
    case Some(f) => forall n :: n in w.store.blocks ==> n < f + |w.log|
  }

  /** Another service records only blocks the daemon has passed. */
  predicate RecordedBehind<S>(w: Walk<S>, turn: Turn) {
    turn.Record? ==> w.first.Some? && turn.n < w.first.value + |w.log|
  }

  lemma TurnKeepsNothingAhead<S, X>(chain: Chain<X>, extract: Extract<S, X>, mode: StartMode, tables: S, w: Walk<S>, turn: Turn)
    requires AllTimed(chain) && Logged(chain, extract, tables, w)
    requires !mode.FromLatest? && OnePass(w) && NothingAhead(w) && RecordedBehind(w, turn)
    ensures KeepsOnePass(mode, w, turn) && NothingAhead(AfterTurn(chain, extract, mode, w, turn))
  {
    if turn.Next? {
      assert Timed(chain, w.current);
      if w.first.Some? {
        RangeHas(w.first.value, |w.log|, w.current);
      }
    }
  }

  lemma {:induction false} BehindUpTo<S, X>(chain: Chain<X>, extract: Extract<S, X>, mode: StartMode, tables: S, turns: seq<Turn>, k: nat)
    requires AllTimed(chain) && !mode.FromLatest? && k <= |turns|
    requires forall j :: 0 <= j < k ==> RecordedBehind(At(chain, extract, mode, tables, turns, j), turns[j])
    ensures OnePass(At(chain, extract, mode, tables, turns, k)) && NothingAhead(At(chain, extract, mode, tables, turns, k))
  {
    if k > 0 {
      var w := At(chain, extract, mode, tables, turns, k - 1);
      BehindUpTo(chain, extract, mode, tables, turns, k - 1);
      AtNext(chain, extract, mode, tables, turns, k - 1);
      RunKeepsLogged(chain, extract, mode, tables, turns[..k - 1]);
      TurnKeepsNothingAhead(chain, extract, mode, tables, w, turns[k - 1]);
      TurnKeepsOnePassIff(chain, extract, mode, tables, w, turns[k - 1]);
    }
  }

  /** With a fixed start or `current`, restarts at any time make one pass as long as other services record only blocks
      that the daemon has passed. */
  lemma RestartsAreOnePass<S, X>(chain: Chain<X>, extract: Extract<S, X>, mode: StartMode, tables: S, turns: seq<Turn>)
    requires AllTimed(chain) && !mode.FromLatest?
    requires forall k :: 0 <= k < |turns| ==> RecordedBehind(At(chain, extract, mode, tables, turns, k), turns[k])
    ensures forall k :: 0 <= k <= |turns| ==> OnePass(At(chain, extract, mode, tables, turns, k))
  {
    forall k | 0 <= k <= |turns| ensures OnePass(At(chain, extract, mode, tables, turns, k)) {
      BehindUpTo(chain, extract, mode, tables, turns, k);
    }
  }

  // ---------------------------------------------------------------- three ways to skip a block

  lemma Skips<S>(w: Walk<S>)
    requires w.first == Some(50) && |w.log| == 2 && w.log[1] != 51
    ensures !OnePass(w)
  {
    assert Range(50, 2) == Range(50, 1) + [51];
  }

  lemma LastIs(blocks: map<nat, nat>, n: nat)
    requires n in blocks && forall k :: k in blocks ==> k <= n
    ensures LastOf(blocks) == Some(n)
  {
    assert IsLast(blocks, LastOf(blocks));
  }

  /** In the mode latest a session that starts late leaves out blocks that no session scans. */
  lemma LatestCanSkip<S, X>(chain: Chain<X>, extract: Extract<S, X>, tables: S)
    requires AllTimed(chain)
    ensures var w := WalkOn(chain, extract, FromLatest, Fresh(tables), [Start(60), Next, Start(110), Next]);
            w.log == [50, 100] && !OnePass(w)
  {
    var turns := [Start(60), Next, Start(110), Next];
    FirstTurns(chain, extract, FromLatest, tables, turns);
    AtNext(chain, extract, FromLatest, tables, turns, 2);
    AtNext(chain, extract, FromLatest, tables, turns, 3);
    assert turns[..4] == turns;
    Skips(WalkOn(chain, extract, FromLatest, Fresh(tables), turns));
  }

  lemma FirstTurns<S, X>(chain: Chain<X>, extract: Extract<S, X>, mode: StartMode, tables: S, turns: seq<Turn>)
    requires AllTimed(chain) && mode in {FromLatest, FromBlock(50)}
    requires |turns| >= 2 && turns[0] == Start(60) && turns[1] == Next
    ensures var w := At(chain, extract, mode, tables, turns, 2);
            w.first == Some(50) && w.current == 51 && w.log == [50] && w.store.blocks.Keys == {50}
  {
    AtNext(chain, extract, mode, tables, turns, 0);
    AtNext(chain, extract, mode, tables, turns, 1);
    assert turns[..0] == [] && Timed(chain, 50);
    assert IsLast(map[], LastOf(map[]));
  }

  /** With a fixed start: after block 50 an auction records block 100, and the next session starts there. */
  lemma RecordedBlockMovesTheStart<S, X>(chain: Chain<X>, extract: Extract<S, X>, tables: S)
    requires AllTimed(chain)
    ensures var w := WalkOn(chain, extract, FromBlock(50), Fresh(tables), [Start(60), Next, Record(100, 7), Start(110), Next, Next]);
            w.log == [50, 101] && !OnePass(w)
  {
    var turns := [Start(60), Next, Record(100, 7), Start(110), Next, Next];
    FirstTurns(chain, extract, FromBlock(50), tables, turns);
    AtNext(chain, extract, FromBlock(50), tables, turns, 2);
    LastIs(At(chain, extract, FromBlock(50), tables, turns, 3).store.blocks, 100);
    AtNext(chain, extract, FromBlock(50), tables, turns, 3);
    AtNext(chain, extract, FromBlock(50), tables, turns, 4);
    AtNext(chain, extract, FromBlock(50), tables, turns, 5);
    assert turns[..6] == turns;
    Skips(WalkOn(chain, extract, FromBlock(50), Fresh(tables), turns));
  }

  /** Without a restart: an auction records block 51 before the daemon comes to it, and the daemon passes it over. */
  lemma RecordedBlockIsSkipped<S, X>(chain: Chain<X>, extract: Extract<S, X>, tables: S)
    requires AllTimed(chain)
    ensures var w := WalkOn(chain, extract, FromBlock(50), Fresh(tables), [Start(60), Next, Record(51, 7), Next, Next]);
            w.log == [50, 52] && !OnePass(w)
  {
    var turns := [Start(60), Next, Record(51, 7), Next, Next];
    FirstTurns(chain, extract, FromBlock(50), tables, turns);
    AtNext(chain, extract, FromBlock(50), tables, turns, 2);
    AtNext(chain, extract, FromBlock(50), tables, turns, 3);
    AtNext(chain, extract, FromBlock(50), tables, turns, 4);
    assert turns[..5] == turns;
    Skips(WalkOn(chain, extract, FromBlock(50), Fresh(tables), turns));
  }
}
