/** How the daemons walk the blocks of their chain (src/escrow/base.ts), whatever they extract from them. S is the
    tables a daemon fills, X an extrinsic as it sees it. */
module Scanning {
  import opened Wrappers

  datatype Extrinsic<X> = SetTimestamp(now: nat) | Other(body: X, success: bool)

  type Chain<X> = nat -> seq<Extrinsic<X>>

  /** What one extrinsic of a block does to the tables. */
  type Extract<!S, !X> = (S, nat, X, bool) -> S

  /** blocks: the scanned blocks, with their time (blockchain_block). */
  datatype Store<S> = Store(tables: S, blocks: map<nat, nat>)

  function Extracted<S, X>(extract: Extract<S, X>, n: nat, block: seq<Extrinsic<X>>, tables: S): S {
    if block == [] then tables
    else
      var before := Extracted(extract, n, block[..|block| - 1], tables);
      match block[|block| - 1]
      case SetTimestamp(_) => before
      case Other(body, success) => extract(before, n, body, success)
  }

  function Timestamp<X>(block: seq<Extrinsic<X>>): Option<nat> {
    if block == [] then None
    else
      match block[|block| - 1]
      case SetTimestamp(now) => Some(now)
      case Other(_, _) => Timestamp(block[..|block| - 1])
  }

  /** It is the last one that the block sets. */
  lemma {:induction false} TimestampIsLast<X>(block: seq<Extrinsic<X>>)
    ensures Timestamp(block).None? ==> forall i :: 0 <= i < |block| ==> !block[i].SetTimestamp?
    ensures Timestamp(block).Some? ==>
              exists i :: 0 <= i < |block| && block[i] == SetTimestamp(Timestamp(block).value)
                          && forall j :: i < j < |block| ==> !block[j].SetTimestamp?
  {
    if block != [] {
      var n := |block| - 1;
      var before := block[..n];
      if block[n].SetTimestamp? {
        assert block[n] == SetTimestamp(Timestamp(block).value);
      } else {
        TimestampIsLast(before);
        if Timestamp(block).Some? {
          var i :| 0 <= i < n && before[i] == SetTimestamp(Timestamp(before).value)
                   && forall j :: i < j < n ==> !before[j].SetTimestamp?;
          assert block[i] == SetTimestamp(Timestamp(block).value);
          forall j | i < j < |block| ensures !block[j].SetTimestamp? {
            if j < n { assert block[j] == before[j]; }
          }
        } else {
          forall i | 0 <= i < |block| ensures !block[i].SetTimestamp? {
            if i < n { assert block[i] == before[i]; }
          }
        }
      }
    }
  }

  /** scanBlock: a block counts as scanned only when it set a timestamp. */
  function AfterBlock<S, X>(chain: Chain<X>, extract: Extract<S, X>, store: Store<S>, n: nat, force: bool): Store<S> {
    if !force && n in store.blocks then store
    else
      var tables := Extracted(extract, n, chain(n), store.tables);
      match Timestamp(chain(n))
      case Some(now) => Store(tables, store.blocks[n := now])
      case None => Store(tables, store.blocks)
  }

  /** Blocks scanned one after the other, without force. */
  function Visit<S, X>(chain: Chain<X>, extract: Extract<S, X>, store: Store<S>, visits: seq<nat>): Store<S> {
    if visits == [] then store
    else AfterBlock(chain, extract, Visit(chain, extract, store, visits[..|visits| - 1]), visits[|visits| - 1], false)
  }

  // ---------------------------------------------------------------- what is extracted

  /** The tables after extracting each listed block, with no record of what was scanned. */
  function Pass<S, X>(chain: Chain<X>, extract: Extract<S, X>, tables: S, blocks: seq<nat>): S {
    if blocks == [] then tables
    else
      var n := blocks[|blocks| - 1];
      Extracted(extract, n, chain(n), Pass(chain, extract, tables, blocks[..|blocks| - 1]))
  }

  /** The distinct blocks in the order of their first visit. */
  function FirstVisits(visits: seq<nat>): seq<nat> {
    if visits == [] then []
    else
      var before, n := visits[..|visits| - 1], visits[|visits| - 1];
      if n in before then FirstVisits(before) else FirstVisits(before) + [n]
  }

  lemma {:induction false} FirstVisitsAreDistinct(visits: seq<nat>)
    ensures forall n :: n in FirstVisits(visits) <==> n in visits
    ensures forall i, j :: 0 <= i < j < |FirstVisits(visits)| ==> FirstVisits(visits)[i] != FirstVisits(visits)[j]
  {
    if visits != [] {
      var before, n := visits[..|visits| - 1], visits[|visits| - 1];
      assert visits == before + [n];
      FirstVisitsAreDistinct(before);
    }
  }

  predicate Timed<X>(chain: Chain<X>, n: nat) {
    Timestamp(chain(n)).Some?
  }

  lemma PassOneMore<S, X>(chain: Chain<X>, extract: Extract<S, X>, tables: S, blocks: seq<nat>, n: nat)
    ensures Pass(chain, extract, tables, blocks + [n]) == Extracted(extract, n, chain(n), Pass(chain, extract, tables, blocks))
  {
    assert (blocks + [n])[..|blocks|] == blocks;
  }

  lemma BlockIsScannedIff<S, X>(chain: Chain<X>, extract: Extract<S, X>, store: Store<S>, n: nat)
    ensures forall k :: k in AfterBlock(chain, extract, store, n, false).blocks <==> k in store.blocks || (k == n && Timed(chain, n))
  {
  }

  // The table of scanned blocks has other writers too: when a service sends a token, it records the block.

  datatype Act =
    | Visited(n: nat)              // the daemon comes to a block
    | Noted(n: nat, now: nat)      // another service records it

  function AfterAct<S, X>(chain: Chain<X>, extract: Extract<S, X>, store: Store<S>, act: Act): Store<S> {
    match act
    case Visited(n) => AfterBlock(chain, extract, store, n, false)
    case Noted(n, now) => Store(store.tables, if n in store.blocks then store.blocks else store.blocks[n := now])
  }

  function AfterActs<S, X>(chain: Chain<X>, extract: Extract<S, X>, store: Store<S>, acts: seq<Act>): Store<S> {
    if acts == [] then store
    else AfterAct(chain, extract, AfterActs(chain, extract, store, acts[..|acts| - 1]), acts[|acts| - 1])
  }

  function VisitsOf(acts: seq<Act>): seq<nat> {
    if acts == [] then []
    else
      var before, act := VisitsOf(acts[..|acts| - 1]), acts[|acts| - 1];
      if act.Visited? then before + [act.n] else before
  }

  predicate NotedIn(acts: seq<Act>, n: nat) {
    exists k :: 0 <= k < |acts| && acts[k].Noted? && acts[k].n == n
  }

  /** The block counts as scanned after these acts. */
  predicate Known<X>(chain: Chain<X>, acts: seq<Act>, n: nat) {
    NotedIn(acts, n) || (n in VisitsOf(acts) && Timed(chain, n))
  }

  lemma NotedInPrefix(acts: seq<Act>, n: nat)
    requires acts != []
    ensures NotedIn(acts, n) <==>
      NotedIn(acts[..|acts| - 1], n) || (acts[|acts| - 1].Noted? && acts[|acts| - 1].n == n)
  {
    var before := acts[..|acts| - 1];
    if NotedIn(before, n) {
      var k :| 0 <= k < |before| && before[k].Noted? && before[k].n == n;
      assert acts[k] == before[k];
    }
    if NotedIn(acts, n) && !(acts[|acts| - 1].Noted? && acts[|acts| - 1].n == n) {
      var k :| 0 <= k < |acts| && acts[k].Noted? && acts[k].n == n;
      assert before[k] == acts[k];
    }
  }

  lemma KnownPrefix<X>(chain: Chain<X>, acts: seq<Act>, n: nat)
    requires acts != []
    ensures var before, act := acts[..|acts| - 1], acts[|acts| - 1];
            Known(chain, acts, n) <==> Known(chain, before, n) || (act.n == n && (act.Noted? || Timed(chain, n)))
  {
    NotedInPrefix(acts, n);
  }

  /** The blocks that count as scanned are those that another service recorded and the visited ones that set a
      timestamp. */
  lemma {:induction false} ScannedBlocks<S, X>(chain: Chain<X>, extract: Extract<S, X>, tables: S, acts: seq<Act>, n: nat)
    ensures n in AfterActs(chain, extract, Store(tables, map[]), acts).blocks <==> Known(chain, acts, n)
  {
    if acts != [] {
      var before, act := acts[..|acts| - 1], acts[|acts| - 1];
      ScannedBlocks(chain, extract, tables, before, n);
      KnownPrefix(chain, acts, n);
      if act.Visited? {
        BlockIsScannedIff(chain, extract, AfterActs(chain, extract, Store(tables, map[]), before), act.n);
      }
    }
  }

  /** The visits on which the block is extracted. */
  function Extractions<X>(chain: Chain<X>, acts: seq<Act>): seq<nat> {
    if acts == [] then []
    else
      var before, act := acts[..|acts| - 1], acts[|acts| - 1];
      if act.Visited? && !Known(chain, before, act.n) then Extractions(chain, before) + [act.n] else Extractions(chain, before)
  }

  /** Whatever happens, the tables are those of extracting these blocks, one after the other. */
  lemma {:induction false} TablesAreExtractions<S, X>(chain: Chain<X>, extract: Extract<S, X>, tables: S, acts: seq<Act>)
    ensures AfterActs(chain, extract, Store(tables, map[]), acts).tables == Pass(chain, extract, tables, Extractions(chain, acts))
  {
    if acts != [] {
      var before, act := acts[..|acts| - 1], acts[|acts| - 1];
      TablesAreExtractions(chain, extract, tables, before);
      ScannedBlocks(chain, extract, tables, before, act.n);
      PassOneMore(chain, extract, tables, Extractions(chain, before), act.n);
    }
  }

  // ---------------------------------------------------------------- exactly once

  /** The first visit to a block finds it not recorded by another service, a later one finds it scanned. */
  predicate OnceAt<X>(chain: Chain<X>, acts: seq<Act>, k: nat)
    requires k < |acts|
  {
    acts[k].Visited? ==>
      if acts[k].n in VisitsOf(acts[..k]) then Known(chain, acts[..k], acts[k].n) else !NotedIn(acts[..k], acts[k].n)
  }

  /** The blocks of a list that matter. */
  function Mattering(list: seq<nat>, matters: nat -> bool): seq<nat> {
    if list == [] then []
    else
      var before, n := Mattering(list[..|list| - 1], matters), list[|list| - 1];
      if matters(n) then before + [n] else before
  }

  function Times(list: seq<nat>, n: nat): nat {
    if list == [] then 0
    else Times(list[..|list| - 1], n) + (if list[|list| - 1] == n then 1 else 0)
  }

  lemma TimesPush(list: seq<nat>, m: nat, n: nat)
    ensures Times(list + [m], n) == Times(list, n) + (if m == n then 1 else 0)
  {
    assert (list + [m])[..|list|] == list;
  }

  lemma MatteringPush(list: seq<nat>, matters: nat -> bool, n: nat)
    ensures Mattering(list + [n], matters) == if matters(n) then Mattering(list, matters) + [n] else Mattering(list, matters)
  {
    assert (list + [n])[..|list|] == list;
  }

  lemma {:induction false} MatteringTimes(list: seq<nat>, matters: nat -> bool, n: nat)
    requires matters(n)
    ensures Times(Mattering(list, matters), n) == Times(list, n)
  {
    if list != [] {
      var before, m := list[..|list| - 1], list[|list| - 1];
      MatteringTimes(before, matters, n);
      if matters(m) {
        TimesPush(Mattering(before, matters), m, n);
      }
    }
  }

  lemma {:induction false} FirstVisitsTimes(visits: seq<nat>, n: nat)
    ensures Times(FirstVisits(visits), n) == if n in visits then 1 else 0
  {
    if visits != [] {
      var before, m := visits[..|visits| - 1], visits[|visits| - 1];
      assert visits == before + [m];
      FirstVisitsTimes(before, n);
      TimesPush(FirstVisits(before), m, n);
    }
  }

  /** A block is extracted at most as often as it is visited, and at every visit while it does not count as scanned. */
  lemma {:induction false} ExtractionTimes<X>(chain: Chain<X>, acts: seq<Act>, n: nat)
    ensures n !in VisitsOf(acts) ==> Times(Extractions(chain, acts), n) == 0
    ensures n in VisitsOf(acts) && !Known(chain, acts, n) ==> Times(Extractions(chain, acts), n) >= 1
  {
    if acts != [] {
      var before, act := acts[..|acts| - 1], acts[|acts| - 1];
      ExtractionTimes(chain, before, n);
      KnownPrefix(chain, acts, n);
      TimesPush(Extractions(chain, before), act.n, n);
    }
  }

  /** Once it counts as scanned it is not extracted any more. */
  lemma {:induction false} ExtractionsStop<X>(chain: Chain<X>, acts: seq<Act>, k: nat, n: nat)
    requires k <= |acts|
    ensures Times(Extractions(chain, acts), n) >= Times(Extractions(chain, acts[..k]), n)
    ensures Known(chain, acts[..k], n) ==>
      Known(chain, acts, n) && Times(Extractions(chain, acts), n) == Times(Extractions(chain, acts[..k]), n)
    ensures n in VisitsOf(acts[..k]) ==> n in VisitsOf(acts)
  {
    if k == |acts| {
      assert acts[..k] == acts;
    } else {
      var before, act := acts[..|acts| - 1], acts[|acts| - 1];
      assert before[..k] == acts[..k];
      ExtractionsStop(chain, before, k, n);
      KnownPrefix(chain, acts, n);
      TimesPush(Extractions(chain, before), act.n, n);
    }
  }

  /** A visit that breaks the condition leaves its block extracted never or twice, for good. */
  lemma NotOnce<X>(chain: Chain<X>, acts: seq<Act>, k: nat)
    requires k < |acts| && !OnceAt(chain, acts, k)
    ensures acts[k].n in VisitsOf(acts) && Times(Extractions(chain, acts), acts[k].n) != 1
  {
    var before, n := acts[..k], acts[k].n;
    var next := acts[..k + 1];
    assert next[..|next| - 1] == before && next[|next| - 1] == acts[k];
    ExtractionTimes(chain, before, n);
    KnownPrefix(chain, next, n);
    TimesPush(Extractions(chain, before), n, n);
    ExtractionsStop(chain, acts, k + 1, n);
    ExtractionsStop(chain, next, k, n);
  }

  lemma OnceOneMore<X>(chain: Chain<X>, acts: seq<Act>, matters: nat -> bool)
    requires acts != [] && (matters(acts[|acts| - 1].n) ==> OnceAt(chain, acts, |acts| - 1))
    requires var before := acts[..|acts| - 1];
             Mattering(Extractions(chain, before), matters) == Mattering(FirstVisits(VisitsOf(before)), matters)
    ensures Mattering(Extractions(chain, acts), matters) == Mattering(FirstVisits(VisitsOf(acts)), matters)
  {
    var before, act := acts[..|acts| - 1], acts[|acts| - 1];
    MatteringPush(Extractions(chain, before), matters, act.n);
    MatteringPush(FirstVisits(VisitsOf(before)), matters, act.n);
    if act.Visited? {
      assert VisitsOf(acts)[..|VisitsOf(acts)| - 1] == VisitsOf(before);
    }
  }

  lemma {:induction false} OnceIsFirstVisits<X>(chain: Chain<X>, acts: seq<Act>, matters: nat -> bool)
    requires forall k :: 0 <= k < |acts| && matters(acts[k].n) ==> OnceAt(chain, acts, k)
    ensures Mattering(Extractions(chain, acts), matters) == Mattering(FirstVisits(VisitsOf(acts)), matters)
  {
    if acts != [] {
      var m := |acts| - 1;
      var before := acts[..m];
      forall k | 0 <= k < m && matters(before[k].n) ensures OnceAt(chain, before, k) {
        assert acts[k] == before[k] && acts[..k] == before[..k];
        assert OnceAt(chain, acts, k);
      }
      OnceIsFirstVisits(chain, before, matters);
      OnceOneMore(chain, acts, matters);
    }
  }

  /** Of the blocks that matter, exactly the visited ones are extracted, once each and in the order of their first
      visits, exactly when each visit to one of them meets the condition. */
  lemma ExtractedOnceIff<X>(chain: Chain<X>, acts: seq<Act>, matters: nat -> bool)
    ensures Mattering(Extractions(chain, acts), matters) == Mattering(FirstVisits(VisitsOf(acts)), matters)
            <==> forall k :: 0 <= k < |acts| && matters(acts[k].n) ==> OnceAt(chain, acts, k)
  {
    if forall k :: 0 <= k < |acts| && matters(acts[k].n) ==> OnceAt(chain, acts, k) {
      OnceIsFirstVisits(chain, acts, matters);
    }
    if Mattering(Extractions(chain, acts), matters) == Mattering(FirstVisits(VisitsOf(acts)), matters) {
      forall k | 0 <= k < |acts| && matters(acts[k].n) ensures OnceAt(chain, acts, k) {
        var n := acts[k].n;
        MatteringTimes(Extractions(chain, acts), matters, n);
        MatteringTimes(FirstVisits(VisitsOf(acts)), matters, n);
        FirstVisitsTimes(VisitsOf(acts), n);
        if !OnceAt(chain, acts, k) {
          NotOnce(chain, acts, k);
        }
      }
    }
  }

  lemma {:induction false} AllMatter(list: seq<nat>)
    ensures Mattering(list, n => true) == list
  {
    if list != [] {
      AllMatter(list[..|list| - 1]);
    }
  }

  /** Blocks visited again and again, in any order, and recorded by other services in between, leave the tables of a
      single pass over the distinct blocks, if every first visit finds its block not recorded by another service and
      every later one finds it scanned. */
  lemma ExactlyOnce<S, X>(chain: Chain<X>, extract: Extract<S, X>, tables: S, acts: seq<Act>)
    requires forall k :: 0 <= k < |acts| ==> OnceAt(chain, acts, k)
    ensures AfterActs(chain, extract, Store(tables, map[]), acts).tables == Pass(chain, extract, tables, FirstVisits(VisitsOf(acts)))
  {
    TablesAreExtractions(chain, extract, tables, acts);
    OnceIsFirstVisits(chain, acts, n => true);
    AllMatter(Extractions(chain, acts));
    AllMatter(FirstVisits(VisitsOf(acts)));
  }

  // ---------------------------------------------------------------- appended rows

  /** A daemon whose extrinsics each append rows, as deposits do. */
  function Appending<X, Y>(rows: (nat, X, bool) -> seq<Y>): Extract<seq<Y>, X> {
    (table: seq<Y>, n: nat, body: X, success: bool) => table + rows(n, body, success)
  }

  function BlockRows<X, Y>(rows: (nat, X, bool) -> seq<Y>, n: nat, block: seq<Extrinsic<X>>): seq<Y> {
    Extracted(Appending(rows), n, block, [])
  }

  lemma {:induction false} ExtractedAppends<X, Y>(rows: (nat, X, bool) -> seq<Y>, n: nat, block: seq<Extrinsic<X>>, table: seq<Y>)
    ensures Extracted(Appending(rows), n, block, table) == table + BlockRows(rows, n, block)
  {
    if block != [] {
      ExtractedAppends(rows, n, block[..|block| - 1], table);
    }
  }

  /** Rows that name their block, as those of the tables do. */
  function Tagged<Y>(n: nat, rows: seq<Y>): (r: seq<(nat, Y)>)
    ensures |r| == |rows| && forall i :: 0 <= i < |r| ==> r[i] == (n, rows[i])
  {
    seq(|rows|, i requires 0 <= i < |rows| => (n, rows[i]))
  }

  /** The rows of a list of blocks. */
  function RowsOf<X, Y>(chain: Chain<X>, rows: (nat, X, bool) -> seq<Y>, list: seq<nat>): seq<(nat, Y)> {
    if list == [] then []
    else
      var n := list[|list| - 1];
      RowsOf(chain, rows, list[..|list| - 1]) + Tagged(n, BlockRows(rows, n, chain(n)))
  }

  function TaggedRows<X, Y>(rows: (nat, X, bool) -> seq<Y>): (nat, X, bool) -> seq<(nat, Y)> {
    (n: nat, body: X, success: bool) => Tagged(n, rows(n, body, success))
  }

  lemma {:induction false} TaggedBlock<X, Y>(rows: (nat, X, bool) -> seq<Y>, n: nat, block: seq<Extrinsic<X>>)
    ensures BlockRows(TaggedRows(rows), n, block) == Tagged(n, BlockRows(rows, n, block))
  {
    if block != [] {
      var before, last := block[..|block| - 1], block[|block| - 1];
      TaggedBlock(rows, n, before);
      if last.Other? {
        var earlier, added := BlockRows(rows, n, before), rows(n, last.body, last.success);
        assert BlockRows(rows, n, block) == earlier + added;
        assert BlockRows(TaggedRows(rows), n, block) == Tagged(n, earlier) + Tagged(n, added);
        assert Tagged(n, earlier + added) == Tagged(n, earlier) + Tagged(n, added);
      }
    }
  }

  lemma {:induction false} PassIsRows<X, Y>(chain: Chain<X>, rows: (nat, X, bool) -> seq<Y>, list: seq<nat>)
    ensures Pass(chain, Appending(TaggedRows(rows)), [], list) == RowsOf(chain, rows, list)
  {
    if list != [] {
      var n := list[|list| - 1];
      PassIsRows(chain, rows, list[..|list| - 1]);
      ExtractedAppends(TaggedRows(rows), n, chain(n), Pass(chain, Appending(TaggedRows(rows)), [], list[..|list| - 1]));
      TaggedBlock(rows, n, chain(n));
    }
  }

  function HasRows<X, Y>(chain: Chain<X>, rows: (nat, X, bool) -> seq<Y>): nat -> bool {
    (n: nat) => BlockRows(rows, n, chain(n)) != []
  }

  lemma {:induction false} RowsOfMattering<X, Y>(chain: Chain<X>, rows: (nat, X, bool) -> seq<Y>, list: seq<nat>)
    ensures RowsOf(chain, rows, list) == RowsOf(chain, rows, Mattering(list, HasRows(chain, rows)))
  {
    if list != [] {
      var before, n := list[..|list| - 1], list[|list| - 1];
      RowsOfMattering(chain, rows, before);
      if HasRows(chain, rows)(n) {
        var kept := Mattering(before, HasRows(chain, rows));
        assert (kept + [n])[..|kept|] == kept;
      }
    }
  }

  lemma LastRowNames<X, Y>(chain: Chain<X>, rows: (nat, X, bool) -> seq<Y>, list: seq<nat>)
    requires list != [] && HasRows(chain, rows)(list[|list| - 1])
    ensures var all := RowsOf(chain, rows, list);
            all != [] && all[|all| - 1].0 == list[|list| - 1]
  {
  }

  lemma SameSuffix<T>(a: seq<T>, b: seq<T>, suffix: seq<T>)
    requires a + suffix == b + suffix
    ensures a == b
  {
    assert |a| == |b|;
    assert a == (a + suffix)[..|a|] && b == (b + suffix)[..|b|];
  }

  /** From rows that name their block, the list of blocks can be read back. */
  lemma {:induction false} RowsNameBlocks<X, Y>(chain: Chain<X>, rows: (nat, X, bool) -> seq<Y>, list: seq<nat>, list': seq<nat>)
    requires forall i :: 0 <= i < |list| ==> HasRows(chain, rows)(list[i])
    requires forall i :: 0 <= i < |list'| ==> HasRows(chain, rows)(list'[i])
    requires RowsOf(chain, rows, list) == RowsOf(chain, rows, list')
    ensures list == list'
    decreases |list|
  {
    if list != [] {
      LastRowNames(chain, rows, list);
    }
    if list' != [] {
      LastRowNames(chain, rows, list');
    }
    if list != [] && list' != [] {
      var before, before', n := list[..|list| - 1], list'[..|list'| - 1], list[|list| - 1];
      SameSuffix(RowsOf(chain, rows, before), RowsOf(chain, rows, before'), Tagged(n, BlockRows(rows, n, chain(n))));
      RowsNameBlocks(chain, rows, before, before');
      assert list == before + [n] && list' == before' + [n];
    }
  }

  lemma {:induction false} MatteringMatters(list: seq<nat>, matters: nat -> bool)
    ensures forall i :: 0 <= i < |Mattering(list, matters)| ==> matters(Mattering(list, matters)[i])
  {
    if list != [] {
      MatteringMatters(list[..|list| - 1], matters);
    }
  }

  /** The rows a daemon appends are those of a single pass exactly when each visit to a block with rows meets the
      condition: the first finds it not recorded by another service, a later one finds it scanned. */
  lemma RowsAreOnceIff<X, Y>(chain: Chain<X>, rows: (nat, X, bool) -> seq<Y>, acts: seq<Act>)
    ensures AfterActs(chain, Appending(TaggedRows(rows)), Store([], map[]), acts).tables == RowsOf(chain, rows, FirstVisits(VisitsOf(acts)))
            <==> forall k :: 0 <= k < |acts| && HasRows(chain, rows)(acts[k].n) ==> OnceAt(chain, acts, k)
  {
    var extracted, first := Extractions(chain, acts), FirstVisits(VisitsOf(acts));
    TablesAreExtractions(chain, Appending(TaggedRows(rows)), [], acts);
    PassIsRows(chain, rows, extracted);
    ExtractedOnceIff(chain, acts, HasRows(chain, rows));
    RowsOfMattering(chain, rows, extracted);
    RowsOfMattering(chain, rows, first);
    if RowsOf(chain, rows, extracted) == RowsOf(chain, rows, first) {
      MatteringMatters(extracted, HasRows(chain, rows));
      MatteringMatters(first, HasRows(chain, rows));
      RowsNameBlocks(chain, rows, Mattering(extracted, HasRows(chain, rows)), Mattering(first, HasRows(chain, rows)));
    }
  }

  // ---------------------------------------------------------------- where a session starts

  /** The configured starting point. */
  datatype StartMode = FromLatest | FromCurrent | FromBlock(n: nat)

  /** getLastScannedBlock */
  predicate IsLast(blocks: map<nat, nat>, last: Option<nat>) {
    match last
    case None => blocks == map[]
    case Some(n) => n in blocks && forall k :: k in blocks ==> k <= n
  }

  function TenBefore(head: nat): nat {
    if head > 10 then head - 10 else 0
  }

  /** getStartBlock; head is the newest block of the chain. */
  function StartBlock(mode: StartMode, last: Option<nat>, head: nat): nat {
    match mode
    case FromLatest => TenBefore(head)
    case FromCurrent => if last.Some? then last.value else TenBefore(head)
    case FromBlock(n) => if last.Some? then last.value else n
  }

  function Range(from: nat, count: nat): (r: seq<nat>)
    ensures |r| == count
  {
    if count == 0 then [] else Range(from, count - 1) + [from + count - 1]
  }

  lemma VisitRangeEnd<S, X>(chain: Chain<X>, extract: Extract<S, X>, store: Store<S>, from: nat, count: nat)
    requires count > 0
    ensures Visit(chain, extract, store, Range(from, count))
         == AfterBlock(chain, extract, Visit(chain, extract, store, Range(from, count - 1)), from + count - 1, false)
  {
    assert Range(from, count)[..count - 1] == Range(from, count - 1);
  }

  ghost predicate AllTimed<X>(chain: Chain<X>) {
    forall n :: Timed(chain, n)
  }

  // ---------------------------------------------------------------- the base class

  class Escrow<S, X> {
    const chain: Chain<X>
    const extract: Extract<S, X>
    const mode: StartMode
    var tables: S
    var blocks: map<nat, nat>
    var currentBlock: nat

    function State(): Store<S>
      reads this
    {
      Store(tables, blocks)
    }

    constructor (chain: Chain<X>, extract: Extract<S, X>, mode: StartMode, tables: S)
      ensures this.chain == chain && this.extract == extract && this.mode == mode
      ensures State() == Store(tables, map[])
    {
      this.chain, this.extract, this.mode := chain, extract, mode;
      this.tables, blocks, currentBlock := tables, map[], 0;
    }

    method ScanBlock(n: nat, force: bool)
      modifies this`tables, this`blocks
      ensures State() == AfterBlock(chain, extract, old(State()), n, force)
      ensures if !force && n in old(blocks) then State() == old(State())
              else tables == Extracted(extract, n, chain(n), old(tables))
                   && blocks == match Timestamp(chain(n)) { case Some(now) => old(blocks)[n := now] case None => old(blocks) }
    {
      if !force && n in blocks {
        return;
      }
      var block := chain(n);
      var timestamp: Option<nat> := None;
      for i := 0 to |block|
        invariant blocks == old(blocks)
        invariant timestamp == Timestamp(block[..i])
        invariant tables == Extracted(extract, n, block[..i], old(tables))
      {
        assert block[..i + 1][..i] == block[..i];
        match block[i]
        case SetTimestamp(now) => timestamp := Some(now);
        case Other(body, success) => tables := extract(tables, n, body, success);
      }
      assert block[..|block|] == block;
      if timestamp.Some? {
        blocks := blocks[n := timestamp.value];
      }
    }

    method GetLastScannedBlock() returns (last: Option<nat>)
      ensures IsLast(blocks, last)
    {
      last := None;
      var rest := blocks.Keys;
      while rest != {}
        invariant rest <= blocks.Keys
        invariant last.None? ==> rest == blocks.Keys
        invariant last.Some? ==> last.value in blocks && forall k :: k in blocks && k !in rest ==> k <= last.value
        decreases |rest|
      {
        var n :| n in rest;
        if last.None? || last.value < n {
          last := Some(n);
        }
        rest := rest - {n};
      }
    }

    method GetStartBlock(head: nat) returns (start: nat)
      ensures exists last: Option<nat> :: IsLast(blocks, last) && start == StartBlock(mode, last, head)
      ensures mode.FromLatest? || (mode.FromCurrent? && blocks == map[]) ==> start == if head > 10 then head - 10 else 0
      ensures mode.FromBlock? && blocks == map[] ==> start == mode.n
      ensures !mode.FromLatest? && blocks != map[] ==> start in blocks && forall k :: k in blocks ==> k <= start
    {
      var last := GetLastScannedBlock();
      if mode.FromLatest? {
        return TenBefore(head);
      }
      if last.Some? {
        return last.value;
      }
      if mode.FromCurrent? {
        return TenBefore(head);
      }
      start := mode.n;
    }

    /** A session of work: start where the last one ended and take so many turns of the main loop. */
    method Work(head: nat, turns: nat)
      modifies this
      ensures exists last: Option<nat> ::
        (IsLast(old(blocks), last)
         && State() == Visit(chain, extract, old(State()), Range(StartBlock(mode, last, head), turns)))
    {
      currentBlock := GetStartBlock(head);
      ghost var last: Option<nat> :| IsLast(blocks, last) && currentBlock == StartBlock(mode, last, head);
      ghost var start := currentBlock;
      for i := 0 to turns
        invariant currentBlock == start + i
        invariant State() == Visit(chain, extract, old(State()), Range(start, i))
      {
        ScanBlock(currentBlock, false);
        assert Range(start, i + 1)[..i] == Range(start, i);
        currentBlock := currentBlock + 1;
      }
    }
  }
}
