/** Integer cents (packages/billing/src/money.ts). */
module Money {
  import opened Common

  type Cents = int

  datatype RoundingDirection = TowardClient | AwayFromClient

  function AtLeastZero(amount: Cents): Cents { if amount < 0 then 0 else amount }

  function FloorDiv(a: int, b: int): int
    requires b > 0
  {
    a / b
  }

  function CeilDiv(a: int, b: int): int
    requires b > 0
  {
    -((-a) / b)
  }

  /** A share of an amount; a share of more than the whole is the whole. */
  function ProportionOf(amount: Cents, numerator: nat, denominator: int, direction: RoundingDirection): Cents
    requires denominator > 0
  {
    var scaled := amount * Min(numerator, denominator);
    if direction == TowardClient then FloorDiv(scaled, denominator) else CeilDiv(scaled, denominator)
  }

  function PercentageOf(amount: Cents, basisPoints: nat, direction: RoundingDirection): Cents {
    if direction == TowardClient then FloorDiv(amount * basisPoints, 10_000) else CeilDiv(amount * basisPoints, 10_000)
  }

  /**
   * `toward_client` rounds down. For a refund that is the cent against the client: the share paid
   * is the exact share only when it is a whole number of cents, and otherwise below it by less
   * than a cent.
   */
  lemma RefundShareRoundsDown(amount: Cents, numerator: nat, denominator: int)
    requires denominator > 0 && numerator <= denominator
    ensures var share := ProportionOf(amount, numerator, denominator, TowardClient);
      && share * denominator <= amount * numerator < (share + 1) * denominator
      && (share == ProportionOf(amount, numerator, denominator, AwayFromClient)
         <==> amount * numerator % denominator == 0)
      && (amount >= 0 ==> 0 <= share <= amount)
  {
    FloorAndCeil(amount * numerator, denominator);
    if amount >= 0 { ShareWithinWhole(amount, numerator, denominator, FloorDiv(amount * numerator, denominator)); }
  }

  lemma ShareWithinWhole(amount: Cents, numerator: nat, denominator: int, share: int)
    requires amount >= 0 && denominator > 0 && numerator <= denominator
    requires share * denominator <= amount * numerator < (share + 1) * denominator
    ensures 0 <= share <= amount
  {
    ProductNotNegative(amount, numerator);
    ProductNotNegative(amount, denominator - numerator);
    assert amount * denominator == amount * numerator + amount * (denominator - numerator);
    assert (share + 1) * denominator == -((-share - 1) * denominator);
    assert share * denominator == (share - amount - 1) * denominator + amount * denominator + denominator;
    if share < 0 { ProductNotNegative(-share - 1, denominator); }
    if share > amount { ProductNotNegative(share - amount - 1, denominator); }
  }

  lemma ProductNotNegative(x: int, y: int)
    requires x >= 0 && y >= 0
    ensures x * y >= 0
  {}

  /** A percentage is the exact one when it is whole, and otherwise the cent below toward the client, above away. */
  lemma PercentageRounds(amount: Cents, basisPoints: nat)
    ensures PercentageOf(amount, basisPoints, TowardClient) * 10_000 <= amount * basisPoints
    ensures PercentageOf(amount, basisPoints, AwayFromClient) * 10_000 >= amount * basisPoints
    ensures PercentageOf(amount, basisPoints, AwayFromClient) - PercentageOf(amount, basisPoints, TowardClient)
         == if amount * basisPoints % 10_000 == 0 then 0 else 1
  {
  }

  /** A third of 100 cents returned toward the client is 33, where rounding up would be 34. */
  lemma AThirdRoundsDown()
    ensures ProportionOf(100, 1, 3, TowardClient) == 33 && ProportionOf(100, 1, 3, AwayFromClient) == 34
  {
  }

  lemma FloorAndCeil(scaled: int, denominator: int)
    requires denominator > 0
    ensures FloorDiv(scaled, denominator) * denominator <= scaled < (FloorDiv(scaled, denominator) + 1) * denominator
    ensures FloorDiv(scaled, denominator) == CeilDiv(scaled, denominator) <==> scaled % denominator == 0
  {
    var q, r := scaled / denominator, scaled % denominator;
    assert scaled == q * denominator + r;
    var p, t := (-scaled) / denominator, (-scaled) % denominator;
    assert -scaled == p * denominator + t;
    assert (p + q) * denominator == -(r + t);
    if r == 0 {
      assert (p + q) * denominator == -t;
      WholeMultiple(p + q, denominator, t);
    } else {
      if p + q == 0 { assert false; }
    }
  }

  lemma WholeMultiple(k: int, d: int, t: int)
    requires d > 0 && 0 <= t < d && k * d == -t
    ensures k == 0
  {
    assert k > 0 ==> k * d >= d;
    assert k < 0 ==> k * d <= -d;
  }

  /** A fee rounded down and the rest rounded up make the whole: no cent is lost or charged twice. */
  lemma FeeAndRestMakeTheWhole(amount: Cents, basisPoints: nat)
    requires basisPoints <= 10_000
    ensures PercentageOf(amount, basisPoints, TowardClient)
      + PercentageOf(amount, 10_000 - basisPoints, AwayFromClient) == amount
    ensures amount >= 0 ==> 0 <= PercentageOf(amount, basisPoints, TowardClient) <= amount
  {
    var fee := amount * basisPoints;
    assert amount * (10_000 - basisPoints) == 10_000 * amount - fee;
    if amount >= 0 {
      assert 0 <= fee <= amount * 10_000;
    }
  }

  function SumOf(amounts: seq<Cents>): Cents {
    if amounts == [] then 0 else SumOf(amounts[..|amounts| - 1]) + amounts[|amounts| - 1]
  }

  /** `sum`: None is the error it throws. */
  method Sum(amounts: seq<Cents>) returns (total: Option<Cents>)
    ensures total.None?
       <==> (exists i :: 0 <= i < |amounts| && !SafeInteger(amounts[i])) || !SafeInteger(SumOf(amounts))
    ensures total.Some? ==> total.value == SumOf(amounts)
  {
    var running := 0;
    for i := 0 to |amounts|
      invariant running == SumOf(amounts[..i])
      invariant forall k :: 0 <= k < i ==> SafeInteger(amounts[k])
    {
      if !SafeInteger(amounts[i]) { return None; }
      assert amounts[..i + 1] == amounts[..i] + [amounts[i]];
      running := running + amounts[i];
    }
    assert amounts[..|amounts|] == amounts;
    return if SafeInteger(running) then Some(running) else None;
  }

  lemma {:induction false} SumAppend(a: seq<Cents>, b: seq<Cents>)
    ensures SumOf(a + b) == SumOf(a) + SumOf(b)
  {
    if b == [] {
      assert a + b == a;
    } else {
      SumAppend(a, b[..|b| - 1]);
      assert (a + b)[..|a + b| - 1] == a + b[..|b| - 1];
    }
  }
}
