/**
 Quantities are whole millionths of a kilogram (or of a unit): the six decimals that movements and
 sale lines are stored with. Inventory columns keep three decimals only, that is, whole grams: the
 database rounds what is written to them to the nearest gram, ties away from zero.
 */
module Quantity {

  /** Millionths of a kilogram in a gram. Divisions below write the number out. */
  const GRAM := 1000

  /** `n / d` to the nearest integer, ties up, for `n >= 0`: how decimals are cut to a precision. */
  function RoundDiv(n: nat, d: nat): nat
    requires 0 < d
  {
    (2 * n + d) / (2 * d)
  }

  /** The value an inventory column holds after `v` is written to it. */
  function Column(v: int): int {
    if v >= 0 then (v + 500) / 1000 * 1000 else -((-v + 500) / 1000 * 1000)
  }

  /** What adding `q` does to a column that holds whole grams, as long as it stays at or above zero. */
  function Effect(q: int): int {
    (q + 500) / 1000 * 1000
  }

  predicate WholeGrams(q: int) {
    q % 1000 == 0
  }

  lemma ColumnShift(c: int, q: int)
    requires WholeGrams(c) && 0 <= c + q
    ensures Column(c + q) == c + Effect(q) && WholeGrams(Column(c + q)) && 0 <= Column(c + q)
  {
    assert c == c / 1000 * 1000;
    assert (c + q + 500) / 1000 == c / 1000 + (q + 500) / 1000;
  }

  /** Half a gram exactly: the one remainder that is rounded up whichever way the stock moves. */
  predicate IsTie(q: int) {
    q % 1000 == 500
  }

  lemma OutgoingRounding(q: int)
    requires 0 <= q
    ensures Column(q) == -Effect(-q) + (if IsTie(q) then 1000 else 0)
    ensures WholeGrams(q) ==> Effect(q) == q && Effect(-q) == -q && Column(q) == q
  {
    var g, r := q / 1000, q % 1000;
    assert q == g * 1000 + r;
    assert (-q + 500) / 1000 == -g + (500 - r) / 1000;
    assert (q + 500) / 1000 == g + (r + 500) / 1000;
  }

  /** Adding a quantity to a column adds all of it exactly when it is in whole grams. */
  lemma WholeGramsExactly(q: int)
    ensures Effect(q) == q <==> WholeGrams(q)
    ensures WholeGrams(-q) <==> WholeGrams(q)
    ensures 0 <= q ==> Column(q) == Effect(q)
  {
    var g, r := q / 1000, q % 1000;
    assert q == g * 1000 + r;
    assert (q + 500) / 1000 == g + (r + 500) / 1000;
    assert -q == -g * 1000 - r;
  }

  /**
   Taking `taken` off a column and giving `back` back, each rounded, comes to the difference exactly when the two have
   the same fraction of a gram, short of a half. The same quantity there and back leaves a gram too much at a half.
   */
  lemma ThereAndBack(taken: int, back: int)
    ensures Effect(-taken) + Effect(back) == back - taken <==> taken % 1000 == back % 1000 && !IsTie(back)
    ensures Effect(-back) + Effect(back) == if IsTie(back) then GRAM else 0
  {
    var a, r := taken / 1000, taken % 1000;
    var b, s := back / 1000, back % 1000;
    assert taken == a * 1000 + r && back == b * 1000 + s;
    assert (-taken + 500) / 1000 == -a + (500 - r) / 1000;
    assert (-back + 500) / 1000 == -b + (500 - s) / 1000;
    assert (back + 500) / 1000 == b + (s + 500) / 1000;
  }

  lemma Remainder(q: int, g: int, r: nat)
    requires q == g * 1000 + r && r < 1000
    ensures q % 1000 == r
  {
  }

  /** Setting a column of whole grams to `q` moves whole grams, or half a gram, exactly when `q` is or ends in that. */
  lemma GramsOfDifference(q: int, current: int)
    requires WholeGrams(current)
    ensures WholeGrams(q - current) <==> WholeGrams(q)
    ensures WholeGrams(-q) <==> WholeGrams(q)
    ensures IsTie(current - q) <==> IsTie(q)
  {
    var g, r, c := q / 1000, q % 1000, current / 1000;
    var borrow, rest := if r == 0 then 0 else 1, if r == 0 then 0 else 1000 - r;
    assert q == g * 1000 + r && current == c * 1000;
    Remainder(q - current, g - c, r);
    Remainder(current - q, c - g - borrow, rest);
    Remainder(-q, -g - borrow, rest);
  }

  /** Stock only goes down if more than half a gram leaves it. */
  lemma SmallLinesAreFree(c: int, q: int)
    requires WholeGrams(c) && 0 <= q <= c
    ensures Column(c - q) == c <==> q <= 500
  {
    ColumnShift(c, -q);
  }

  // ----- prices, in cents a gram -----

  function EurosToKg(amount: nat, price: nat): nat
    requires 0 < price
  {
    RoundDiv(amount * 1000, price)
  }

  function KgToEuros(quantity: nat, price: nat): nat {
    RoundDiv(quantity * price, 1000)
  }

  lemma RoundDivBounds(n: nat, d: nat)
    requires 0 < d
    ensures 2 * d * RoundDiv(n, d) <= 2 * n + d < 2 * d * RoundDiv(n, d) + 2 * d
  {
    var a, b := 2 * n + d, 2 * d;
    assert a == b * (a / b) + a % b;
  }

  lemma MulOrder(c: nat, x: int, y: int)
    ensures x <= y ==> c * x <= c * y
  {
  }

  lemma RoundDivIs(n: nat, d: nat, r: nat)
    requires 0 < d && 2 * d * r <= 2 * n + d < 2 * d * r + 2 * d
    ensures RoundDiv(n, d) == r
  {
    RoundDivBounds(n, d);
    MulOrder(2 * d, RoundDiv(n, d) + 1, r);
    MulOrder(2 * d, r + 1, RoundDiv(n, d));
  }

  lemma PricedBackUpToTenEuros(amount: nat, price: nat)
    requires 0 < price <= 1000
    ensures KgToEuros(EurosToKg(amount, price), price) == amount
  {
    var q := EurosToKg(amount, price);
    RoundDivBounds(amount * 1000, price);
    assert 2 * price * q == 2 * (q * price);
    if price == 1000 {
      RoundDivIs(amount * 1000, price, amount);
    }
    RoundDivIs(q * price, 1000, amount);
  }

  /** Above ten euros a gram one amount has no weight that is priced back at it. */
  function SkippedAmount(price: nat): nat
    requires 1000 < price
  {
    (500 + (price - 1000) - 1) / (price - 1000)
  }

  lemma SkippedAmountHasNoWeight(price: nat, q: nat)
    requires 1000 < price
    ensures KgToEuros(q, price) != SkippedAmount(price)
  {
    var d, a := price - 1000, SkippedAmount(price);
    var top := 500 + d - 1;
    assert a == top / d && top == d * a + top % d;
    var extra := q * d;
    assert q * price == 1000 * q + extra;
    MulOrder(d, q, a - 1);
    MulOrder(d, a, q);
    assert d * (a - 1) == d * a - d;
    NearestEuroStep(q, extra);
  }

  /** A weight priced `extra` thousandths of a cent above ten euros a gram moves up a cent from half a cent on. */
  lemma NearestEuroStep(q: nat, extra: nat)
    ensures extra < 500 ==> RoundDiv(1000 * q + extra, 1000) == q
    ensures extra >= 500 ==> RoundDiv(1000 * q + extra, 1000) > q
  {
    RoundDivBounds(1000 * q + extra, 1000);
  }

  /**
   A bulk line bought by amount is charged that amount, and its weight is derived from it. Pricing that weight
   again gives the amount back, for every amount, exactly when a gram costs at most ten euros.
   */
  lemma PricedBackExactly(price: nat)
    requires 0 < price
    ensures (forall amount: nat :: KgToEuros(EurosToKg(amount, price), price) == amount) <==> price <= 1000
  {
    if price <= 1000 {
      forall amount: nat
        ensures KgToEuros(EurosToKg(amount, price), price) == amount
      {
        PricedBackUpToTenEuros(amount, price);
      }
    } else {
      var amount := SkippedAmount(price);
      SkippedAmountHasNoWeight(price, EurosToKg(amount, price));
    }
  }
}
