/** What the Kusama daemon extracts from a block (extractBlockData in src/escrow/kusama.ts), under repeated scans. */
module DepositScanning {
  import opened Wrappers
  import opened EscrowBooks
  import opened Scanning

  /** isTransfer: transfer or transferKeepAlive. */
  datatype KusamaExtrinsic =
    | BalancesCall(isTransfer: bool, to: Address, from: Address, amount: nat)
    | OtherSection

  /** A successful transfer to the escrow account is a deposit row, anything else none. */
  function DepositRow(escrow: Address, x: KusamaExtrinsic, success: bool): seq<Transfer> {
    if x.BalancesCall? && x.isTransfer && x.to == escrow && success
    then [Transfer(Deposit, x.amount, TransferPending, x.from)] else []
  }

  function DepositRows(escrow: Address): (nat, KusamaExtrinsic, bool) -> seq<Transfer> {
    (n: nat, x: KusamaExtrinsic, success: bool) => DepositRow(escrow, x, success)
  }

  /** A transfer to the escrow account that went through. */
  predicate IsDeposit(escrow: Address, x: Extrinsic<KusamaExtrinsic>) {
    x.Other? && x.success && x.body.BalancesCall? && x.body.isTransfer && x.body.to == escrow
  }

  predicate HasDeposit(escrow: Address, block: seq<Extrinsic<KusamaExtrinsic>>) {
    exists i :: 0 <= i < |block| && IsDeposit(escrow, block[i])
  }

  /** The positions are those of the deposits of the block, in order. */
  predicate DepositsAt(escrow: Address, block: seq<Extrinsic<KusamaExtrinsic>>, at: seq<nat>) {
    && (forall j, k :: 0 <= j < k < |at| ==> at[j] < at[k])
    && (forall k :: 0 <= k < |at| ==> at[k] < |block|)
    && (forall i :: 0 <= i < |block| ==> (i in at <==> IsDeposit(escrow, block[i])))
  }

  /** The last extrinsic of a block adds its row if it is a deposit, and nothing otherwise. */
  lemma LastDeposit(escrow: Address, n: nat, block: seq<Extrinsic<KusamaExtrinsic>>)
    requires block != []
    ensures var last, before := block[|block| - 1], BlockRows(DepositRows(escrow), n, block[..|block| - 1]);
            BlockRows(DepositRows(escrow), n, block)
            == if IsDeposit(escrow, last) then before + [Transfer(Deposit, last.body.amount, TransferPending, last.body.from)] else before
  {
  }

  /** Row k tells of the extrinsic at position at[k]. */
  predicate TellOf(escrow: Address, block: seq<Extrinsic<KusamaExtrinsic>>, at: seq<nat>, rows: seq<Transfer>) {
    && |rows| == |at|
    && forall k :: 0 <= k < |at| && at[k] < |block| && IsDeposit(escrow, block[at[k]]) ==>
         rows[k] == Transfer(Deposit, block[at[k]].body.amount, TransferPending, block[at[k]].body.from)
  }

  /** The rows of a block are, in order, one pending row for each deposit, of its amount and its signer; a transfer that
      failed or goes elsewhere, and any other extrinsic, adds none. */
  lemma {:induction false} RowsAreDeposits(escrow: Address, n: nat, block: seq<Extrinsic<KusamaExtrinsic>>) returns (at: seq<nat>)
    ensures DepositsAt(escrow, block, at) && TellOf(escrow, block, at, BlockRows(DepositRows(escrow), n, block))
  {
    if block == [] {
      at := [];
    } else {
      var m := |block| - 1;
      var earlier := RowsAreDeposits(escrow, n, block[..m]);
      LastDeposit(escrow, n, block);
      at := if IsDeposit(escrow, block[m]) then earlier + [m] else earlier;
      DepositsPush(escrow, block, earlier);
    }
  }

  lemma DepositsPush(escrow: Address, block: seq<Extrinsic<KusamaExtrinsic>>, earlier: seq<nat>)
    requires block != [] && DepositsAt(escrow, block[..|block| - 1], earlier)
    ensures DepositsAt(escrow, block, if IsDeposit(escrow, block[|block| - 1]) then earlier + [|block| - 1] else earlier)
  {
    var m := |block| - 1;
    var at := if IsDeposit(escrow, block[m]) then earlier + [m] else earlier;
    forall i | 0 <= i < |block| ensures i in at <==> IsDeposit(escrow, block[i]) {
      if i < m {
        assert block[..m][i] == block[i] && (i in at <==> i in earlier);
      }
    }
  }

  lemma NoDepositNoRows(escrow: Address, n: nat, block: seq<Extrinsic<KusamaExtrinsic>>)
    ensures BlockRows(DepositRows(escrow), n, block) == [] <==> !HasDeposit(escrow, block)
  {
    var at := RowsAreDeposits(escrow, n, block);
    if at != [] {
      assert at[0] in at;
    }
    if HasDeposit(escrow, block) {
      var i :| 0 <= i < |block| && IsDeposit(escrow, block[i]);
      assert i in at;
    }
  }

  /** The deposit rows, each with its block, that a run leaves. */
  function DepositTable(chain: Chain<KusamaExtrinsic>, escrow: Address, acts: seq<Act>): seq<(nat, Transfer)> {
    AfterActs(chain, Appending(TaggedRows(DepositRows(escrow))), Store([], map[]), acts).tables
  }

  /** Each deposit is recorded once, in the order of the first visits, exactly when each visit to a block that holds a
      deposit finds it not recorded by another service, if it is the first, and scanned, if it is a later one. */
  lemma DepositsAreOnceIff(chain: Chain<KusamaExtrinsic>, escrow: Address, acts: seq<Act>)
    ensures DepositTable(chain, escrow, acts) == RowsOf(chain, DepositRows(escrow), FirstVisits(VisitsOf(acts)))
            <==> forall k :: 0 <= k < |acts| && HasDeposit(escrow, chain(acts[k].n)) ==> OnceAt(chain, acts, k)
  {
    RowsAreOnceIff(chain, DepositRows(escrow), acts);
    forall k | 0 <= k < |acts|
      ensures HasRows(chain, DepositRows(escrow))(acts[k].n) <==> HasDeposit(escrow, chain(acts[k].n))
    {
      NoDepositNoRows(escrow, acts[k].n, chain(acts[k].n));
    }
  }

  /** No other service records blocks of Kusama, so there it comes down to this: no block that holds a deposit and sets
      no timestamp is visited a second time. */
  lemma UntimedDepositsAreOnceIff(chain: Chain<KusamaExtrinsic>, escrow: Address, acts: seq<Act>)
    requires forall k :: 0 <= k < |acts| ==> acts[k].Visited?
    ensures DepositTable(chain, escrow, acts) == RowsOf(chain, DepositRows(escrow), FirstVisits(VisitsOf(acts)))
            <==> forall k :: 0 <= k < |acts| && acts[k].n in VisitsOf(acts[..k]) ==>
                             Timed(chain, acts[k].n) || !HasDeposit(escrow, chain(acts[k].n))
  {
    DepositsAreOnceIff(chain, escrow, acts);
    forall k | 0 <= k < |acts|
      ensures OnceAt(chain, acts, k) <==> acts[k].n in VisitsOf(acts[..k]) ==> Timed(chain, acts[k].n)
    {
    }
  }

  lemma TableIsExtractions(chain: Chain<KusamaExtrinsic>, escrow: Address, acts: seq<Act>)
    ensures DepositTable(chain, escrow, acts) == RowsOf(chain, DepositRows(escrow), Extractions(chain, acts))
  {
    TablesAreExtractions(chain, Appending(TaggedRows(DepositRows(escrow))), [], acts);
    PassIsRows(chain, DepositRows(escrow), Extractions(chain, acts));
  }

  lemma UntimedIsExtractedTwice<X>(chain: Chain<X>, n: nat)
    requires !Timed(chain, n)
    ensures Extractions(chain, [Visited(n)]) == [n] && Extractions(chain, [Visited(n), Visited(n)]) == [n, n]
  {
    assert [Visited(n), Visited(n)][..1] == [Visited(n)];
  }

  lemma RowsOfTwo<X, Y>(chain: Chain<X>, rows: (nat, X, bool) -> seq<Y>, n: nat, row: Y)
    requires BlockRows(rows, n, chain(n)) == [row]
    ensures RowsOf(chain, rows, [n]) == [(n, row)] && RowsOf(chain, rows, [n, n]) == [(n, row), (n, row)]
  {
    assert [n, n][..1] == [n];
  }

  lemma OneDeposit(escrow: Address, n: nat, block: seq<Extrinsic<KusamaExtrinsic>>, from: Address, amount: nat)
    requires block == [Other(BalancesCall(true, escrow, from, amount), true)]
    ensures Timestamp(block) == None
    ensures BlockRows(DepositRows(escrow), n, block) == [Transfer(Deposit, amount, TransferPending, from)]
  {
    assert block[..0] == [];
    assert Extracted(Appending(DepositRows(escrow)), n, block[..0], []) == [];
  }

  /** A block with a deposit and without a timestamp, visited twice: two rows. */
  lemma UntimedDepositIsTwice(chain: Chain<KusamaExtrinsic>, escrow: Address, n: nat, from: Address, amount: nat)
    requires chain(n) == [Other(BalancesCall(true, escrow, from, amount), true)]
    ensures var row := (n, Transfer(Deposit, amount, TransferPending, from));
            DepositTable(chain, escrow, [Visited(n)]) == [row] && DepositTable(chain, escrow, [Visited(n), Visited(n)]) == [row, row]
  {
    TableIsExtractions(chain, escrow, [Visited(n)]);
    TableIsExtractions(chain, escrow, [Visited(n), Visited(n)]);
    OneDeposit(escrow, n, chain(n), from, amount);
    UntimedIsExtractedTwice(chain, n);
    RowsOfTwo(chain, DepositRows(escrow), n, Transfer(Deposit, amount, TransferPending, from));
  }
}
