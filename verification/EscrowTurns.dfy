/** What the two daemons do in one turn: with one call they scan, with one row of money_transfer, and with all the
    pending ones. Each turn is a run of the state machine of EscrowBooks. */
module EscrowTurns {
  import opened Wrappers
  import opened EscrowBooks

  // ---------------------------------------------------------------- what a daemon does with one row, and with all

  /** A deposit row is marked, its contract call made, its outcome recorded. */
  function RowProcessed(b: Books, row: nat, landed: bool): Books
    requires row < |b.transfers|
  {
    var marked := Mark(b.transfers, row, InProgress);
    match BalanceChange(b.market, b.operator, marked[row])
    case Some(market) =>
      if landed then b.(transfers := Mark(marked, row, Completed), market := market, sends := b.sends + [row])
      else b.(transfers := Mark(marked, row, Failed))
    case None => b.(transfers := Mark(marked, row, Failed))
  }

  /** A withdraw row is marked, paid, recorded. */
  function PaidOut(b: Books, row: nat, landed: bool): Books
    requires row < |b.transfers|
  {
    var marked := Mark(b.transfers, row, InProgress);
    if landed
    then b.(transfers := Mark(marked, row, Completed), vault := b.vault - marked[row].amount, sends := b.sends + [row])
    else b.(transfers := Mark(marked, row, Failed))
  }

  /** The earliest pending row of a kind. */
  function FirstPending(transfers: seq<Transfer>, kind: Kind): (r: Option<nat>)
    ensures r.None? ==> forall i :: 0 <= i < |transfers| ==> !(transfers[i].kind == kind && transfers[i].status == TransferPending)
    ensures r.Some? ==>
      && r.value < |transfers| && transfers[r.value].kind == kind && transfers[r.value].status == TransferPending
      && forall i :: 0 <= i < r.value ==> !(transfers[i].kind == kind && transfers[i].status == TransferPending)
  {
    if transfers == [] then None
    else
      var n := |transfers| - 1;
      var first := FirstPending(transfers[..n], kind);
      if first.Some? then first
      else if transfers[n].kind == kind && transfers[n].status == TransferPending then Some(n)
      else None
  }

  function PendingCount(transfers: seq<Transfer>, kind: Kind): nat {
    if transfers == [] then 0
    else
      var n := |transfers| - 1;
      PendingCount(transfers[..n], kind) + (if transfers[n].kind == kind && transfers[n].status == TransferPending then 1 else 0)
  }

  lemma {:induction false} MarkedIsFewer(transfers: seq<Transfer>, kind: Kind, row: nat, status: TransferStatus)
    requires row < |transfers| && transfers[row].kind == kind && transfers[row].status == TransferPending
    requires status != TransferPending
    ensures PendingCount(Mark(transfers, row, status), kind) == PendingCount(transfers, kind) - 1
  {
    var n := |transfers| - 1;
    if row == n {
      assert Mark(transfers, row, status)[..n] == transfers[..n];
    } else {
      MarkedIsFewer(transfers[..n], kind, row, status);
      assert Mark(transfers, row, status)[..n] == Mark(transfers[..n], row, status);
    }
  }

  lemma MarkTwice(transfers: seq<Transfer>, row: nat, first: TransferStatus, second: TransferStatus)
    ensures Mark(Mark(transfers, row, first), row, second) == Mark(transfers, row, second)
  {
  }

  /** One turn of processContractBalance leaves one pending deposit row less. */
  lemma ProcessedIsFewer(b: Books, row: nat, landed: bool)
    requires PendingRow(b, Deposit, row)
    ensures PendingCount(RowProcessed(b, row, landed).transfers, Deposit) == PendingCount(b.transfers, Deposit) - 1
  {
    MarkTwice(b.transfers, row, InProgress, Completed);
    MarkTwice(b.transfers, row, InProgress, Failed);
    MarkedIsFewer(b.transfers, Deposit, row, Completed);
    MarkedIsFewer(b.transfers, Deposit, row, Failed);
  }

  lemma PaidOutIsFewer(b: Books, row: nat, landed: bool)
    requires PendingRow(b, Withdraw, row)
    ensures PendingCount(PaidOut(b, row, landed).transfers, Withdraw) == PendingCount(b.transfers, Withdraw) - 1
  {
    MarkTwice(b.transfers, row, InProgress, Completed);
    MarkTwice(b.transfers, row, InProgress, Failed);
    MarkedIsFewer(b.transfers, Withdraw, row, Completed);
    MarkedIsFewer(b.transfers, Withdraw, row, Failed);
  }

  /** processContractBalance: deposit rows in the order of their creation, until none is pending. */
  function Drained(b: Books, lands: nat -> bool): Books
    decreases PendingCount(b.transfers, Deposit)
  {
    match FirstPending(b.transfers, Deposit)
    case None => b
    case Some(row) => ProcessedIsFewer(b, row, lands(row)); Drained(RowProcessed(b, row, lands(row)), lands)
  }

  /** processWithdraw */
  function Disbursed(b: Books, lands: nat -> bool): Books
    decreases PendingCount(b.transfers, Withdraw)
  {
    match FirstPending(b.transfers, Withdraw)
    case None => b
    case Some(row) => PaidOutIsFewer(b, row, lands(row)); Disbursed(PaidOut(b, row, lands(row)), lands)
  }

  /** The seller's row of a sale. */
  function WithSaleRow(b: Books): Books
    requires b.unique.Sold?
  {
    AddRow(b, Transfer(Deposit, -b.unique.price, TransferPending, b.unique.next.account)).(unique := Queued(|b.transfers|, b.unique.next))
  }

  function WithPayout(b: Books, next: Payout): Books {
    AddRow(b, Transfer(Withdraw, next.amount, TransferPending, next.account)).(unique := Free)
  }

  /** The rest of processBuyKSM after its trade is recorded. */
  function Settled(b: Books, landed: bool): Books
    requires b.unique.Sold?
  {
    WithPayout(RowProcessed(WithSaleRow(b), |b.transfers|, landed), b.unique.next)
  }

  /** processCall, to its end. */
  function CallHandled(b: Books, landed: bool): Books
    requires b.scanned < |b.calls|
  {
    var after := AfterScan(b);
    if after.unique.Sold? then Settled(after, landed) else after
  }

  // ---------------------------------------------------------------- these are runs of the state machine

  lemma RunAppend(b: Books, first: seq<Event>, second: seq<Event>)
    ensures RunBooks(b, first + second) == RunBooks(RunBooks(b, first), second)
    decreases |second|
  {
    if second == [] {
      assert first + second == first;
    } else {
      var n := |second| - 1;
      assert (first + second)[..|first + second| - 1] == first + second[..n];
      RunAppend(b, first, second[..n]);
    }
  }

  lemma RunPush(b: Books, events: seq<Event>, e: Event)
    ensures RunBooks(b, events + [e]) == Step(RunBooks(b, events), e)
  {
    assert (events + [e])[..|events|] == events;
  }

  /** n times the same step */
  function Again(e: Event, n: nat): (events: seq<Event>)
    ensures |events| == n && forall i :: 0 <= i < n ==> events[i] == e
  {
    if n == 0 then [] else Again(e, n - 1) + [e]
  }

  function StepAgain(b: Books, e: Event, n: nat): Books {
    if n == 0 then b else Step(StepAgain(b, e, n - 1), e)
  }

  lemma {:induction false} RunAgain(b: Books, e: Event, n: nat)
    ensures RunBooks(b, Again(e, n)) == StepAgain(b, e, n)
  {
    if n > 0 {
      RunAgain(b, e, n - 1);
      RunPush(b, Again(e, n - 1), e);
    }
  }

  lemma {:induction false} StepFirst(b: Books, e: Event, n: nat)
    ensures StepAgain(b, e, n + 1) == StepAgain(Step(b, e), e, n)
  {
    if n > 0 {
      StepFirst(b, e, n - 1);
    }
  }

  lemma StepThree(b: Books, e: Event)
    ensures StepAgain(b, e, 3) == Step(Step(Step(b, e), e), e)
  {
    StepFirst(b, e, 2);
    StepFirst(Step(b, e), e, 1);
    StepFirst(Step(Step(b, e), e), e, 0);
  }

  lemma ProcessedIsRun(b: Books, row: nat, landed: bool)
    requires b.unique == Free && PendingRow(b, Deposit, row)
    ensures StepAgain(b, UniqueWork(row, landed), 3) == RowProcessed(b, row, landed)
  {
    StepThree(b, UniqueWork(row, landed));
  }

  lemma PaidOutIsRun(b: Books, row: nat, landed: bool)
    requires b.kusama == Resting && PendingRow(b, Withdraw, row)
    ensures StepAgain(b, KusamaWork(row, landed), 3) == PaidOut(b, row, landed)
  {
    StepThree(b, KusamaWork(row, landed));
  }

  lemma QueuedIsProcessed(b: Books, choice: nat, landed: bool)
    requires b.unique.Queued? && PendingRow(b, Deposit, b.unique.row)
    ensures StepAgain(b, UniqueWork(choice, landed), 3) == RowProcessed(b, b.unique.row, landed).(unique := Owing(b.unique.next))
  {
    var e, row, after := UniqueWork(choice, landed), b.unique.row, Some(b.unique.next);
    var b1 := b.(transfers := Mark(b.transfers, row, InProgress), unique := Sending(row, after));
    var b2 := AfterSubmit(b1, row, after, landed);
    assert Step(b, e) == b1;
    assert Step(b1, e) == b2;
    StepThree(b, e);
  }

  lemma SettledIsRun(b: Books, choice: nat, landed: bool)
    requires b.unique.Sold?
    ensures StepAgain(b, UniqueWork(choice, landed), 5) == Settled(b, landed)
  {
    var e := UniqueWork(choice, landed);
    var b1 := WithSaleRow(b);
    SoldIsQueued(b, choice, landed);
    StepFirst(b, e, 4);
    QueuedIsProcessed(b1, choice, landed);
    OwingIsPaid(RowProcessed(b1, b1.unique.row, landed).(unique := Owing(b1.unique.next)), choice, landed);
  }

  lemma SoldIsQueued(b: Books, choice: nat, landed: bool)
    requires b.unique.Sold?
    ensures Step(b, UniqueWork(choice, landed)) == WithSaleRow(b)
  {
  }

  lemma OwingIsPaid(b: Books, choice: nat, landed: bool)
    requires b.unique.Owing?
    ensures Step(b, UniqueWork(choice, landed)) == WithPayout(b, b.unique.next)
  {
  }

  /** Scanning a call to its end, with the balance change and the payout of a sale. */
  function CallEvents(b: Books, landed: bool): seq<Event>
    requires b.scanned < |b.calls|
  {
    if AfterScan(b).unique.Sold? then [ScanCall] + Again(UniqueWork(0, landed), 5) else [ScanCall]
  }

  lemma ScanIsRun(b: Books)
    requires b.unique == Free && b.scanned < |b.calls|
    ensures RunBooks(b, [ScanCall]) == AfterScan(b)
  {
    assert [ScanCall][..0] == [];
  }

  lemma CallHandledIsRun(b: Books, landed: bool)
    requires b.unique == Free && b.scanned < |b.calls|
    ensures RunBooks(b, CallEvents(b, landed)) == CallHandled(b, landed)
  {
    ScanIsRun(b);
    if AfterScan(b).unique.Sold? {
      RunAppend(b, [ScanCall], Again(UniqueWork(0, landed), 5));
      RunAgain(AfterScan(b), UniqueWork(0, landed), 5);
      SettledIsRun(AfterScan(b), 0, landed);
    }
  }

  function DrainEvents(b: Books, lands: nat -> bool): seq<Event>
    decreases PendingCount(b.transfers, Deposit)
  {
    match FirstPending(b.transfers, Deposit)
    case None => []
    case Some(row) =>
      ProcessedIsFewer(b, row, lands(row));
      Again(UniqueWork(row, lands(row)), 3) + DrainEvents(RowProcessed(b, row, lands(row)), lands)
  }

  /** The loop of the Unique daemon is a run of the state machine that leaves no pending deposit row behind. */
  lemma {:induction false} DrainedIsRun(b: Books, lands: nat -> bool)
    requires b.unique == Free
    ensures RunBooks(b, DrainEvents(b, lands)) == Drained(b, lands)
    ensures Drained(b, lands).unique == Free && FirstPending(Drained(b, lands).transfers, Deposit).None?
    decreases PendingCount(b.transfers, Deposit)
  {
    var first := FirstPending(b.transfers, Deposit);
    if first.Some? {
      var row, landed := first.value, lands(first.value);
      var next := RowProcessed(b, row, landed);
      ProcessedIsFewer(b, row, landed);
      RunAgain(b, UniqueWork(row, landed), 3);
      ProcessedIsRun(b, row, landed);
      RunAppend(b, Again(UniqueWork(row, landed), 3), DrainEvents(next, lands));
      DrainedIsRun(next, lands);
    }
  }

  function DisburseEvents(b: Books, lands: nat -> bool): seq<Event>
    decreases PendingCount(b.transfers, Withdraw)
  {
    match FirstPending(b.transfers, Withdraw)
    case None => []
    case Some(row) =>
      PaidOutIsFewer(b, row, lands(row));
      Again(KusamaWork(row, lands(row)), 3) + DisburseEvents(PaidOut(b, row, lands(row)), lands)
  }

  /** And so is the loop of the Kusama daemon, for withdraw rows. */
  lemma {:induction false} DisbursedIsRun(b: Books, lands: nat -> bool)
    requires b.kusama == Resting
    ensures RunBooks(b, DisburseEvents(b, lands)) == Disbursed(b, lands)
    ensures Disbursed(b, lands).kusama == Resting && FirstPending(Disbursed(b, lands).transfers, Withdraw).None?
    decreases PendingCount(b.transfers, Withdraw)
  {
    var first := FirstPending(b.transfers, Withdraw);
    if first.Some? {
      var row, landed := first.value, lands(first.value);
      var next := PaidOut(b, row, landed);
      PaidOutIsFewer(b, row, landed);
      RunAgain(b, KusamaWork(row, landed), 3);
      PaidOutIsRun(b, row, landed);
      RunAppend(b, Again(KusamaWork(row, landed), 3), DisburseEvents(next, lands));
      DisbursedIsRun(next, lands);
    }
  }
}
