/** The bid rows of one auction and the grouped queries the services run over them
    (src/auction/services/helpers/database-helper.ts). A row is never deleted: a bid is a row with a
    non-negative amount, a withdrawal is a row with a negative one. */
module BidLedger {
  import opened Wrappers

  datatype BidStatus = Minting | Finished | Error

  datatype Bid = Bid(auction: nat, bidder: Address, amount: int, balance: int, status: BidStatus)

  /** The status filters of the queries, and two that only the proofs use. */
  datatype Scope =
    | Actual   // rows whose transfer is final
    | Pending  // final rows and rows in flight
    | Exposed  // final rows and withdrawals in flight
    | Every    // all rows

  predicate Counts(s: Scope, r: Bid) {
    match s
    case Actual => r.status == Finished
    case Pending => r.status != Error
    case Exposed => r.status == Finished || (r.status == Minting && r.amount < 0)
    case Every => true
  }

  function Share(r: Bid, b: Address, s: Scope): int {
    if r.bidder == b && Counts(s, r) then r.amount else 0
  }

  /** SUM(amount) of one bidder's rows. */
  function Total(rows: seq<Bid>, b: Address, s: Scope): int {
    if rows == [] then 0
    else Total(rows[..|rows| - 1], b, s) + Share(rows[|rows| - 1], b, s)
  }

  /** SUM(amount) of all rows. */
  function GrandTotal(rows: seq<Bid>, s: Scope): int {
    if rows == [] then 0
    else
      var r := rows[|rows| - 1];
      GrandTotal(rows[..|rows| - 1], s) + (if Counts(s, r) then r.amount else 0)
  }

  predicate Present(rows: seq<Bid>, b: Address, s: Scope) {
    exists i :: 0 <= i < |rows| && rows[i].bidder == b && Counts(s, rows[i])
  }

  predicate HasAny(rows: seq<Bid>, s: Scope) {
    exists i :: 0 <= i < |rows| && Counts(s, rows[i])
  }

  /** One row of the grouped query. */
  datatype Aggregate = Aggregate(bidder: Address, total: int)

  ghost predicate Listed(list: seq<Aggregate>, b: Address) {
    exists k :: 0 <= k < |list| && list[k].bidder == b
  }

  ghost predicate Distinct(list: seq<Aggregate>) {
    forall j, k :: 0 <= j < k < |list| ==> list[j].bidder != list[k].bidder
  }

  /** GROUP BY bidder: each bidder with a row once, with the sum of its rows. */
  ghost predicate IsGrouping(list: seq<Aggregate>, rows: seq<Bid>, s: Scope) {
    && Distinct(list)
    && (forall k :: 0 <= k < |list| ==> list[k].total == Total(rows, list[k].bidder, s))
    && (forall b :: Listed(list, b) <==> Present(rows, b, s))
  }

  ghost predicate Descending(list: seq<Aggregate>) {
    forall j, k :: 0 <= j < k < |list| ==> list[j].total >= list[k].total
  }

  /** A possible answer of the grouped query: equal totals may come in any order. */
  ghost predicate IsListing(list: seq<Aggregate>, rows: seq<Bid>, s: Scope) {
    IsGrouping(list, rows, s) && Descending(list)
  }

  /** w may be the first row of the grouped query. */
  ghost predicate IsTop(rows: seq<Bid>, s: Scope, w: Address) {
    Present(rows, w, s) && forall b :: Present(rows, b, s) ==> Total(rows, b, s) <= Total(rows, w, s)
  }

  /** A possible answer of the query for the first row only. */
  ghost predicate IsFirst(rows: seq<Bid>, s: Scope, w: Option<Address>) {
    match w
    case None => !HasAny(rows, s)
    case Some(b) => IsTop(rows, s, b)
  }

  function SumTotals(list: seq<Aggregate>): int {
    if list == [] then 0 else SumTotals(list[..|list| - 1]) + list[|list| - 1].total
  }

  // ---------------------------------------------------------------- sums and row updates

  lemma TotalSnoc(rows: seq<Bid>, r: Bid, b: Address, s: Scope)
    ensures Total(rows + [r], b, s) == Total(rows, b, s) + Share(r, b, s)
  {
    assert (rows + [r])[..|rows|] == rows;
  }

  lemma PresentSnoc(rows: seq<Bid>, r: Bid, b: Address, s: Scope)
    ensures Present(rows + [r], b, s) <==> Present(rows, b, s) || (r.bidder == b && Counts(s, r))
    ensures HasAny(rows + [r], s) <==> HasAny(rows, s) || Counts(s, r)
  {
    var rows' := rows + [r];
    assert rows'[|rows|] == r;
    forall i | 0 <= i < |rows| ensures rows'[i] == rows[i] {}
    if Present(rows, b, s) {
      var i :| 0 <= i < |rows| && rows[i].bidder == b && Counts(s, rows[i]);
      assert rows'[i] == rows[i];
    }
    if HasAny(rows, s) {
      var i :| 0 <= i < |rows| && Counts(s, rows[i]);
      assert rows'[i] == rows[i];
    }
  }

  function Mark(rows: seq<Bid>, j: nat, st: BidStatus): (rows': seq<Bid>)
    requires j < |rows|
  {
    rows[j := rows[j].(status := st)]
  }

  lemma {:induction false} TotalMark(rows: seq<Bid>, j: nat, st: BidStatus, b: Address, s: Scope)
    requires j < |rows|
    ensures Total(Mark(rows, j, st), b, s)
         == Total(rows, b, s) - Share(rows[j], b, s) + Share(Mark(rows, j, st)[j], b, s)
  {
    var n := |rows| - 1;
    var rows' := Mark(rows, j, st);
    if j == n {
      assert rows'[..n] == rows[..n];
    } else {
      assert rows'[..n] == Mark(rows[..n], j, st);
      TotalMark(rows[..n], j, st, b, s);
    }
  }

  /** Scopes that agree on a bidder's rows give it the same total. */
  lemma {:induction false} TotalsCoincide(rows: seq<Bid>, b: Address, s: Scope, t: Scope)
    requires forall i :: 0 <= i < |rows| && rows[i].bidder == b ==> (Counts(s, rows[i]) <==> Counts(t, rows[i]))
    ensures Total(rows, b, s) == Total(rows, b, t)
  {
    if rows != [] {
      var n := |rows| - 1;
      assert rows[n].bidder == b ==> (Counts(s, rows[n]) <==> Counts(t, rows[n]));
      TotalsCoincide(rows[..n], b, s, t);
    }
  }

  lemma {:induction false} AbsentIsZero(rows: seq<Bid>, b: Address, s: Scope)
    requires !Present(rows, b, s)
    ensures Total(rows, b, s) == 0
  {
    if rows != [] {
      var n := |rows| - 1;
      assert !(rows[n].bidder == b && Counts(s, rows[n]));
      AbsentIsZero(rows[..n], b, s);
    }
  }

  // ---------------------------------------------------------------- GROUP BY partitions the rows

  /** The totals of any set of bidders that covers the rows, added up over the list. */
  function SumOver(list: seq<Aggregate>, rows: seq<Bid>, s: Scope): int {
    if list == [] then 0
    else SumOver(list[..|list| - 1], rows, s) + Total(rows, list[|list| - 1].bidder, s)
  }

  /** A new row moves the sum over a list without repetition by its amount exactly when its bidder is listed. */
  lemma {:induction false} SumOverSnoc(list: seq<Aggregate>, rows: seq<Bid>, r: Bid, s: Scope)
    requires Distinct(list)
    ensures SumOver(list, rows + [r], s)
         == SumOver(list, rows, s) + (if Counts(s, r) && Listed(list, r.bidder) then r.amount else 0)
  {
    if list != [] {
      var n := |list| - 1;
      var init := list[..n];
      assert forall k :: 0 <= k < n ==> init[k] == list[k];
      SumOverSnoc(init, rows, r, s);
      TotalSnoc(rows, r, list[n].bidder, s);
      if Listed(init, r.bidder) {
        var k :| 0 <= k < |init| && init[k].bidder == r.bidder;
        assert list[k].bidder == r.bidder;
      } else {
        assert list[n].bidder == r.bidder ==> Listed(list, r.bidder);
      }
    }
  }

  lemma {:induction false} SumOverCovers(list: seq<Aggregate>, rows: seq<Bid>, s: Scope)
    requires Distinct(list)
    requires forall b :: Present(rows, b, s) ==> Listed(list, b)
    ensures SumOver(list, rows, s) == GrandTotal(rows, s)
  {
    if rows == [] {
      SumOverNothing(list, s);
    } else {
      var n := |rows| - 1;
      var init, r := rows[..n], rows[n];
      assert rows == init + [r];
      forall b | Present(init, b, s) ensures Listed(list, b) {
        PresentSnoc(init, r, b, s);
      }
      SumOverCovers(list, init, s);
      SumOverSnoc(list, init, r, s);
      PresentSnoc(init, r, r.bidder, s);
    }
  }

  lemma {:induction false} SumOverNothing(list: seq<Aggregate>, s: Scope)
    ensures SumOver(list, [], s) == 0
  {
    if list != [] {
      SumOverNothing(list[..|list| - 1], s);
    }
  }

  lemma {:induction false} SumTotalsIsSumOver(list: seq<Aggregate>, rows: seq<Bid>, s: Scope)
    requires forall k :: 0 <= k < |list| ==> list[k].total == Total(rows, list[k].bidder, s)
    ensures SumTotals(list) == SumOver(list, rows, s)
  {
    if list != [] {
      SumTotalsIsSumOver(list[..|list| - 1], rows, s);
    }
  }

  /** Grouping loses and repeats nothing: the group totals add up to the sum of all rows. */
  lemma GroupsPartitionRows(list: seq<Aggregate>, rows: seq<Bid>, s: Scope)
    requires IsGrouping(list, rows, s)
    ensures SumTotals(list) == GrandTotal(rows, s)
  {
    SumTotalsIsSumOver(list, rows, s);
    SumOverCovers(list, rows, s);
  }

  // ---------------------------------------------------------------- running the queries

  /** The bidder with the largest total; which one among equals is up to the database. */
  method Largest(rows: seq<Bid>, s: Scope, group: set<Address>) returns (top: Address)
    requires group != {}
    ensures top in group
    ensures forall b :: b in group ==> Total(rows, b, s) <= Total(rows, top, s)
  {
    top :| top in group;
    var rest := group - {top};
    while rest != {}
      invariant top in group && rest <= group
      invariant forall b :: b in group - rest ==> Total(rows, b, s) <= Total(rows, top, s)
      decreases rest
    {
      var b :| b in rest;
      if Total(rows, b, s) > Total(rows, top, s) {
        top := b;
      }
      rest := rest - {b};
    }
  }

  /** SELECT SUM(amount), bidder ... GROUP BY bidder ORDER BY 1 DESC. */
  method GroupedBids(rows: seq<Bid>, s: Scope) returns (list: seq<Aggregate>)
    ensures IsListing(list, rows, s)
  {
    var group: set<Address> := {};
    for i := 0 to |rows|
      invariant forall b :: b in group <==> Present(rows[..i], b, s)
    {
      assert rows[..i + 1] == rows[..i] + [rows[i]];
      forall b ensures Present(rows[..i + 1], b, s) <==> Present(rows[..i], b, s) || (rows[i].bidder == b && Counts(s, rows[i])) {
        PresentSnoc(rows[..i], rows[i], b, s);
      }
      if Counts(s, rows[i]) {
        group := group + {rows[i].bidder};
      }
    }
    assert rows[..|rows|] == rows;
    ghost var everyone := group;
    list := [];
    while group != {}
      invariant group <= everyone
      invariant Distinct(list) && Descending(list)
      invariant forall k :: 0 <= k < |list| ==> list[k].total == Total(rows, list[k].bidder, s)
      invariant forall b :: b in everyone <==> b in group || Listed(list, b)
      invariant forall k :: 0 <= k < |list| ==> list[k].bidder !in group
      invariant forall k, b :: 0 <= k < |list| && b in group ==> Total(rows, b, s) <= list[k].total
      decreases group
    {
      var top := Largest(rows, s, group);
      ghost var before := list;
      list := list + [Aggregate(top, Total(rows, top, s))];
      group := group - {top};
      forall b ensures Listed(list, b) <==> Listed(before, b) || b == top {
        if Listed(before, b) {
          var k :| 0 <= k < |before| && before[k].bidder == b;
          assert list[k].bidder == b;
        }
        assert list[|before|].bidder == top;
      }
    }
  }

  /** The first row of the grouped query, if there is one. */
  method FirstGroup(rows: seq<Bid>, s: Scope) returns (first: Option<Aggregate>)
    ensures first.None? ==> IsFirst(rows, s, None)
    ensures first.Some? ==> IsFirst(rows, s, Some(first.value.bidder)) && first.value.total == Total(rows, first.value.bidder, s)
  {
    var list := GroupedBids(rows, s);
    if list == [] {
      first := None;
      if HasAny(rows, s) {
        var i :| 0 <= i < |rows| && Counts(s, rows[i]);
        assert Present(rows, rows[i].bidder, s);
        assert false;
      }
    } else {
      first := Some(list[0]);
      FirstOfListing(list, rows, s);
    }
  }

  lemma FirstOfListing(list: seq<Aggregate>, rows: seq<Bid>, s: Scope)
    requires IsListing(list, rows, s) && list != []
    ensures IsTop(rows, s, list[0].bidder)
  {
    assert Listed(list, list[0].bidder);
    forall b | Present(rows, b, s) ensures Total(rows, b, s) <= Total(rows, list[0].bidder, s) {
      assert Listed(list, b);
      var k :| 0 <= k < |list| && list[k].bidder == b;
    }
  }
}
