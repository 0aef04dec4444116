/** The two ways the services compute a market commission, in whole units of currency. */
module Commission {
  /** Division of the source language: towards zero. */
  function Quotient(x: int, d: int): int
    requires d > 0
  {
    if x >= 0 then x / d else -(-x / d)
  }

  /** What a closed auction keeps (src/auction/services/closing/auction-closing.service.ts). */
  function MarketFee(finalPrice: int, commission: nat): int {
    Quotient(finalPrice * commission, 100)
  }

  function OwnerPrice(finalPrice: int, commission: nat): int {
    finalPrice - MarketFee(finalPrice, commission)
  }

  /** What trade records and fixed-price payouts use (src/escrow/unique.ts). */
  function PriceWithoutCommission(price: int, commission: nat): int {
    Quotient(price * 100, 100 + commission)
  }

  /** The price without commission is the largest whole amount that, with the commission on top, fits the price. */
  lemma PriceWithoutCommissionIsLargest(price: nat, commission: nat, n: int)
    ensures n <= PriceWithoutCommission(price, commission) <==> n * (100 + commission) <= price * 100
  {
    var r, d := PriceWithoutCommission(price, commission), 100 + commission;
    assert r * d <= price * 100 < (r + 1) * d by {
      assert price * 100 == r * d + (price * 100) % d;
      assert (r + 1) * d == r * d + d;
    }
    if n <= r {
      MulMonotone(n, r, d);
    } else {
      MulMonotone(r + 1, n, d);
    }
  }

  lemma MulMonotone(x: int, y: int, d: nat)
    requires x <= y
    ensures x * d <= y * d
  {
    assert (y - x) * d >= 0;
  }

  /** What is kept of a closed auction is the largest whole amount that is no more than the commission's share of the
      price; of a negative price, the smallest that is no less. */
  lemma MarketFeeIsLargest(price: int, commission: nat, n: int)
    ensures price >= 0 ==> (n <= MarketFee(price, commission) <==> 100 * n <= price * commission)
    ensures price <= 0 ==> (n >= MarketFee(price, commission) <==> 100 * n >= price * commission)
  {
    var share := price * commission;
    if price >= 0 {
      assert share >= 0;
    } else {
      assert -share == -price * commission >= 0;
    }
  }

  /** What is kept of a total is the commission's share of it, without the fraction. */
  predicate KeepsCommission(total: int, commission: nat, kept: int) {
    && (total >= 0 ==> 100 * kept <= total * commission < 100 * (kept + 1))
    && (total <= 0 ==> 100 * (kept - 1) < total * commission <= 100 * kept)
  }

  /** What is recorded of a price is the largest whole amount that fits it with the commission on top. */
  predicate FitsPrice(price: int, commission: nat, recorded: int) {
    && (price >= 0 ==> recorded * (100 + commission) <= price * 100 < (recorded + 1) * (100 + commission))
    && (price <= 0 ==> (recorded - 1) * (100 + commission) < price * 100 <= recorded * (100 + commission))
  }

  lemma KeptIsFee(total: int, commission: nat)
    ensures KeepsCommission(total, commission, MarketFee(total, commission))
  {
    var kept := MarketFee(total, commission);
    MarketFeeIsLargest(total, commission, kept);
    MarketFeeIsLargest(total, commission, kept + 1);
    MarketFeeIsLargest(total, commission, kept - 1);
  }

  lemma RecordedFits(price: int, commission: nat)
    ensures FitsPrice(price, commission, PriceWithoutCommission(price, commission))
  {
    var r, d := PriceWithoutCommission(price, commission), 100 + commission;
    assert (r + 1) * d == r * d + d && (r - 1) * d == r * d - d;
    if price >= 0 {
      assert price * 100 == r * d + (price * 100) % d;
    } else {
      assert -price * 100 == -r * d + (-price * 100) % d;
    }
  }

  /** Marking a base price up by the commission and rounding up loses nothing: the base is recovered. */
  lemma MarkupRoundTrip(base: nat, commission: nat)
    ensures PriceWithoutCommission((base * (100 + commission) + 99) / 100, commission) == base
  {
    var total := base * (100 + commission);
    var price := (total + 99) / 100;
    assert total <= price * 100 <= total + 99;
    PriceWithoutCommissionIsLargest(price, commission, base);
    PriceWithoutCommissionIsLargest(price, commission, base + 1);
    assert (base + 1) * (100 + commission) == total + 100 + commission;
  }

  /** The seller of a closed auction is paid the price less the commission's share, rounded down; recorded is the price
      that, with the commission on top, fits. The recorded one lies at most one unit below what is paid, and above it by
      no more than the square of the commission rate allows. */
  lemma RecordedPriceGap(price: nat, commission: nat)
    ensures var owner, recorded := OwnerPrice(price, commission), PriceWithoutCommission(price, commission);
            && 100 * (price - owner) <= price * commission < 100 * (price - owner + 1)
            && recorded * (100 + commission) <= price * 100 < (recorded + 1) * (100 + commission)
            && owner <= recorded + 1
            && 100 * (100 + commission) * (recorded - owner) <= price * (commission * commission)
  {
    var d := 100 + commission;
    var owner, recorded := OwnerPrice(price, commission), PriceWithoutCommission(price, commission);
    MarketFeeIsLargest(price, commission, price - owner);
    MarketFeeIsLargest(price, commission, price - owner + 1);
    PriceWithoutCommissionIsLargest(price, commission, recorded);
    PriceWithoutCommissionIsLargest(price, commission, recorded + 1);
    assert price * commission >= 0;
    var feeRest, recRest := (price * commission) % 100, (price * 100) % d;
    DivisionRest(price * commission, 100);
    DivisionRest(price * 100, d);
    GapIdentity(price, commission, owner, recorded, feeRest, recRest);
    SmallTerms(price, commission, feeRest);
    AboveMinusTwo(recorded - owner, 100 * d);
  }

  lemma DivisionRest(x: nat, d: nat)
    requires d > 0
    ensures x == x / d * d + x % d && 0 <= x % d < d
  {
  }

  lemma SmallTerms(price: nat, c: nat, feeRest: nat)
    requires feeRest < 100
    ensures 0 <= (100 + c) * feeRest <= (100 + c) * 99
    ensures price * (c * c) >= 0
  {
    MulMonotone(feeRest, 99, 100 + c);
  }

  lemma GapIdentity(price: int, c: int, owner: int, recorded: int, feeRest: int, recRest: int)
    requires 100 * owner == price * 100 - price * c + feeRest
    requires price * 100 == recorded * (100 + c) + recRest
    ensures 100 * (100 + c) * (recorded - owner) == price * (c * c) - 100 * recRest - (100 + c) * feeRest
  {
    var d := 100 + c;
    Expand(price, c, feeRest, owner);
    Distribute(d, recorded, owner);
  }

  lemma Distribute(d: int, recorded: int, owner: int)
    ensures 100 * d * (recorded - owner) == 100 * (recorded * d) - d * (100 * owner)
  {
  }

  lemma AboveMinusTwo(x: int, k: nat)
    requires k * x > -2 * k
    ensures x >= -1
  {
    if x <= -2 {
      MulMonotone(x, -2, k);
      assert false;
    }
  }

  lemma Expand(price: int, c: int, rest: int, owner: int)
    requires 100 * owner == price * 100 - price * c + rest
    ensures (100 + c) * (100 * owner) == price * 10000 - price * (c * c) + (100 + c) * rest
  {
    calc {
      (100 + c) * (100 * owner);
      (100 + c) * (price * 100 - price * c + rest);
      100 * (price * 100 - price * c) + c * (price * 100 - price * c) + (100 + c) * rest;
      price * 10000 - 100 * (price * c) + 100 * (price * c) - c * (price * c) + (100 + c) * rest;
      price * 10000 - price * (c * c) + (100 + c) * rest;
    }
  }
}
