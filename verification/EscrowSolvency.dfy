/** What the market owes its users against the KSM it holds. A sale pays the seller on Kusama and debits the seller's
    balance on the contract; a debit that fails leaves the seller with both. */
module EscrowSolvency {
  import opened Wrappers
  import opened Sums
  import opened EscrowBooks
  import opened EscrowAccounting

  /** The debits of sales that failed. */
  function FailedDebits(transfers: seq<Transfer>): nat {
    if transfers == [] then 0
    else
      var n := |transfers| - 1;
      FailedDebits(transfers[..n])
      + (if transfers[n].kind == Deposit && transfers[n].amount < 0 && transfers[n].status == Failed then -transfers[n].amount else 0)
  }

  /** The users' deposits that have not reached the contract, failed ones included. */
  function UncreditedDeposits(transfers: seq<Transfer>): nat {
    if transfers == [] then 0
    else
      var n := |transfers| - 1;
      UncreditedDeposits(transfers[..n])
      + (if transfers[n].kind == Deposit && transfers[n].amount >= 0 && transfers[n].status != Completed then transfers[n].amount else 0)
  }

  /** What the users have coming: their balances, deposits under way, payouts not made, withdrawals not scanned. */
  ghost function Obligations(b: Books): int {
    Sum(b.market.balances) + UncreditedDeposits(b.transfers) + ArrivedFrom(b.arrivals, b.taken)
    + Uncompleted(b.transfers, Withdraw) + EmittedFrom(b.calls, b.scanned)
  }

  // ---------------------------------------------------------------- debits are sent at once

  /** Without crashes, the debit of a sale is settled unless the Unique daemon is just at it. */
  predicate DebitsSettled(b: Books) {
    && (forall i :: 0 <= i < |b.arrivals| ==> b.arrivals[i].amount >= 0)
    && forall i :: 0 <= i < |b.transfers| && b.transfers[i].kind == Deposit && b.transfers[i].amount < 0 ==>
         match b.transfers[i].status
         case TransferPending => b.unique.Queued? && b.unique.row == i
         case InProgress => (b.unique.Sending? || b.unique.Recording?) && b.unique.row == i
         case _ => true
  }

  lemma UniqueWorkKeepsDebits(b: Books, choice: nat, landed: bool)
    requires Filed(b) && DebitsSettled(b)
    ensures DebitsSettled(AfterUniqueWork(b, choice, landed))
  {
  }

  lemma KusamaWorkKeepsDebits(b: Books, choice: nat, landed: bool)
    requires Filed(b) && DebitsSettled(b)
    ensures DebitsSettled(AfterKusamaWork(b, choice, landed))
  {
  }

  lemma ScanKeepsDebits(b: Books)
    requires Filed(b) && DebitsSettled(b) && b.unique == Free && b.scanned < |b.calls|
    ensures DebitsSettled(AfterScan(b))
  {
  }

  lemma StepKeepsDebits(b: Books, e: Event)
    requires Filed(b) && DebitsSettled(b) && NoCrash(e)
    ensures DebitsSettled(Step(b, e))
  {
    match e
    case UniqueWork(choice, landed) => UniqueWorkKeepsDebits(b, choice, landed);
    case KusamaWork(choice, landed) => KusamaWorkKeepsDebits(b, choice, landed);
    case ScanCall => if b.unique == Free && b.scanned < |b.calls| { ScanKeepsDebits(b); }
    case _ =>
  }

  lemma {:induction false} RunSettlesDebits(b: Books, events: seq<Event>)
    requires Opened(b) && forall n :: 0 <= n < |events| ==> NoCrash(events[n])
    ensures DebitsSettled(RunBooks(b, events))
  {
    if events != [] {
      var n := |events| - 1;
      RunSettlesDebits(b, events[..n]);
      RunIsFiled(b, events[..n]);
      StepKeepsDebits(RunBooks(b, events[..n]), events[n]);
    }
  }

  lemma {:induction false} UncompletedDeposits(transfers: seq<Transfer>)
    requires forall i :: 0 <= i < |transfers| && transfers[i].kind == Deposit && transfers[i].amount < 0 ==>
      transfers[i].status in {Completed, Failed}
    ensures Uncompleted(transfers, Deposit) == UncreditedDeposits(transfers) - FailedDebits(transfers)
  {
    if transfers != [] {
      UncompletedDeposits(transfers[..|transfers| - 1]);
    }
  }

  // ---------------------------------------------------------------- solvency

  /** Between two rows the market holds what it owes its users and its commissions, less the debits that failed. */
  lemma VaultAgainstObligations(b: Books, events: seq<Event>)
    requires Opened(b) && Orderly(b, events) && AtRest(RunBooks(b, events))
    ensures var b' := RunBooks(b, events);
            b'.vault == Obligations(b') + Commissions(b'.index.trades) - FailedDebits(b'.transfers)
  {
    var b' := RunBooks(b, events);
    TablesTellTheAccount(b, events);
    RunSettlesDebits(b, events);
    DebitsAtRest(b');
  }

  lemma DebitsAtRest(b: Books)
    requires DebitsSettled(b) && AtRest(b)
    ensures Uncompleted(b.transfers, Deposit) == UncreditedDeposits(b.transfers) - FailedDebits(b.transfers)
  {
    forall i | 0 <= i < |b.transfers| && b.transfers[i].kind == Deposit && b.transfers[i].amount < 0
      ensures b.transfers[i].status in {Completed, Failed}
    {
      assert b.transfers[i].status != TransferPending && b.transfers[i].status != InProgress;
    }
    UncompletedDeposits(b.transfers);
  }

  /** It can pay everybody exactly if the commissions make up for the failed debits. */
  lemma MarketSolventIff(b: Books, events: seq<Event>)
    requires Opened(b) && Orderly(b, events) && AtRest(RunBooks(b, events))
    ensures var b' := RunBooks(b, events);
            b'.vault >= Obligations(b') <==> FailedDebits(b'.transfers) <= Commissions(b'.index.trades)
  {
    VaultAgainstObligations(b, events);
  }

  /** And it keeps its commissions besides exactly if no debit has failed. */
  lemma EarningsAreCoveredIff(b: Books, events: seq<Event>)
    requires Opened(b) && Orderly(b, events) && AtRest(RunBooks(b, events))
    ensures var b' := RunBooks(b, events);
            b'.vault >= Obligations(b') + Commissions(b'.index.trades)
            <==> forall i :: 0 <= i < |b'.transfers| && b'.transfers[i].kind == Deposit && b'.transfers[i].amount < 0 ==>
                   b'.transfers[i].status != Failed
  {
    VaultAgainstObligations(b, events);
    NoFailedDebitIff(RunBooks(b, events).transfers);
  }

  lemma {:induction false} NoFailedDebitIff(transfers: seq<Transfer>)
    ensures FailedDebits(transfers) == 0
            <==> forall i :: 0 <= i < |transfers| && transfers[i].kind == Deposit && transfers[i].amount < 0 ==>
                   transfers[i].status != Failed
  {
    if transfers != [] {
      var n := |transfers| - 1;
      var before := transfers[..n];
      NoFailedDebitIff(before);
      if FailedDebits(transfers) == 0 {
        forall i | 0 <= i < |transfers| && transfers[i].kind == Deposit && transfers[i].amount < 0
          ensures transfers[i].status != Failed
        {
          if i < n { assert before[i] == transfers[i]; }
        }
      }
    }
  }

  /** A debit fails exactly when its transaction does not reach the chain, the daemon's account has lost its rights,
      or the seller's balance on the contract has fallen below the price in the meantime. */
  lemma DebitFailsIff(b: Books, landed: bool)
    requires Filed(b) && b.unique.Sending? && b.transfers[b.unique.row].amount < 0
    ensures var row := b.transfers[b.unique.row];
            var after := AfterUniqueWork(b, 0, landed).unique;
            after.Recording? && after.row == b.unique.row
            && (!after.ok <==> !landed || b.operator !in b.market.escrows || Get(b.market.balances, row.account) < -row.amount)
  {
  }
}
