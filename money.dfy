/**
 * The numbers the services receive and store. A JavaScript number is modelled
 * as NaN or an exact decimal `digits × 10^-scale`; the database's
 * `DECIMAL(10,2)` columns hold whole cents.
 */
module Money {

  import opened Envelope

  datatype JsNumber = NaN | Decimal(digits: int, scale: nat)

  function Pow10(n: nat): (p: nat)
    ensures p >= 1
  {
    if n == 0 then 1 else 10 * Pow10(n - 1)
  }

  lemma {:induction false} Pow10Add(a: nat, b: nat)
    ensures Pow10(a + b) == Pow10(a) * Pow10(b)
  {
    if a > 0 {
      Pow10Add(a - 1, b);
    }
  }

  /** `x < 0`: false for NaN, as every comparison with NaN is. */
  predicate IsNegative(x: JsNumber) {
    x.Decimal? && x.digits < 0
  }

  /** `Number.isInteger(x)`. */
  predicate IsInteger(x: JsNumber) {
    x.Decimal? && x.digits % Pow10(x.scale) == 0
  }

  function IntegerValue(x: JsNumber): (n: int)
    requires IsInteger(x)
    ensures n * Pow10(x.scale) == x.digits
  {
    x.digits / Pow10(x.scale)
  }

  /** The value of `x` is the whole number `n`. */
  predicate Represents(x: JsNumber, n: int) {
    x.Decimal? && x.digits == n * Pow10(x.scale)
  }

  /**
   * `Number.isInteger` holds exactly for the numbers that represent a whole
   * number, and `IntegerValue` is that number.
   */
  lemma IntegerIsWholeNumber(x: JsNumber, n: int)
    ensures Represents(x, n) ==> IsInteger(x) && IntegerValue(x) == n
    ensures IsInteger(x) ==> Represents(x, IntegerValue(x))
  {
    if Represents(x, n) {
      var p := Pow10(x.scale);
      DivideWithSmallRemainder(x.digits, p, n, 0);
      assert x.digits == p * (x.digits / p) + x.digits % p;
    }
  }

  /**
   * `x.toFixed(2)` read back as whole cents, for a non-negative `x`: the
   * integer `c` for which `c / 100` is nearest to `x`, the larger one on a tie.
   */
  function ToCents(x: JsNumber): (c: nat)
    requires x.Decimal? && x.digits >= 0
  {
    var p := Pow10(x.scale);
    DivNonNegative(200 * x.digits + p, 2 * p);
    (200 * x.digits + p) / (2 * p)
  }

  lemma DivNonNegative(a: int, b: int)
    requires a >= 0 && b > 0
    ensures a / b >= 0
  {
  }

  /**
   * `ToCents` rounds to the nearest cent: `c / 100` lies within half a cent
   * of the value `digits / 10^scale`, rounding half-way cases up.
   */
  lemma ToCentsNearest(x: JsNumber)
    requires x.Decimal? && x.digits >= 0
    ensures var p: int := Pow10(x.scale);
            -p < 2 * p * ToCents(x) - 200 * x.digits <= p
  {
    var p: int := Pow10(x.scale);
    var a := 200 * x.digits + p;
    var b := 2 * p;
    assert a - b < b * (a / b) <= a;
    assert ToCents(x) == a / b;
  }

  /** A value with at most two decimals is stored exactly. */
  lemma ToCentsExact(x: JsNumber)
    requires x.Decimal? && x.digits >= 0 && x.scale <= 2
    ensures ToCents(x) * Pow10(x.scale) == 100 * x.digits
  {
    var p := Pow10(x.scale);
    var k := Pow10(2 - x.scale);
    Pow10Add(x.scale, 2 - x.scale);
    assert p * k == 100;
    var a := 200 * x.digits + p;
    assert a == 2 * p * (x.digits * k) + p;
    DivideWithSmallRemainder(a, 2 * p, x.digits * k, p);
  }

  lemma MulAtLeast(b: int, k: int)
    requires b > 0 && k >= 1
    ensures b * k >= b
  {
  }

  lemma DivideWithSmallRemainder(a: int, b: int, q: int, r: int)
    requires b > 0 && 0 <= r < b && a == b * q + r
    ensures a / b == q
  {
    var q', r' := a / b, a % b;
    assert a == b * q' + r' && 0 <= r' < b;
    assert b * (q - q') == r' - r;
    if q - q' >= 1 { MulAtLeast(b, q - q'); }
    if q' - q >= 1 { MulAtLeast(b, q' - q); }
  }

  /** The price a product row holds, in cents, read back as a JavaScript number. */
  function FromCents(cents: nat): JsNumber {
    Decimal(cents, 2)
  }

  /** A stored price read back and fixed to two decimals again is the same number of cents. */
  lemma CentsRoundTrip(cents: nat)
    ensures ToCents(FromCents(cents)) == cents
  {
    ToCentsExact(FromCents(cents));
  }

  /** `unit * quantity` on exact decimals. */
  function Times(x: JsNumber, n: int): (y: JsNumber)
  {
    match x
    case NaN => NaN
    case Decimal(d, s) => Decimal(d * n, s)
  }

  /**
   * A purchase total: the unit price times the quantity, rejected when it is
   * NaN or negative, else stored as `toFixed(2)`.
   */
  function TotalCents(priceCents: nat, quantity: int): (r: Option<nat>)
  {
    var total := Times(FromCents(priceCents), quantity);
    if total.NaN? || IsNegative(total) then None else Some(ToCents(total))
  }

  /** The exact price of `quantity` units at `priceCents` each. */
  function LineTotal(priceCents: nat, quantity: nat): nat {
    priceCents * quantity
  }

  /**
   * A non-negative price and a positive quantity always give a total, and the
   * total is exactly price times quantity: the guard never fires and nothing
   * is lost to rounding.
   */
  lemma TotalIsExactProduct(priceCents: nat, quantity: int)
    requires quantity >= 1
    ensures TotalCents(priceCents, quantity) == Some(LineTotal(priceCents, quantity))
  {
    var total := Times(FromCents(priceCents), quantity);
    assert total == Decimal(priceCents * quantity, 2);
    ToCentsExact(total);
  }

  /**
   * The guard refuses a total exactly when the quantity is negative and the
   * price is not zero: only then is the product negative, and it is never NaN.
   */
  lemma TotalRefusedExactly(priceCents: nat, quantity: int)
    ensures TotalCents(priceCents, quantity).None? <==> priceCents > 0 && quantity < 0
  {
    var total := Times(FromCents(priceCents), quantity);
    assert total == Decimal(priceCents * quantity, 2);
    if priceCents > 0 && quantity < 0 {
      assert priceCents * quantity < 0;
    } else if priceCents == 0 {
      assert priceCents * quantity == 0;
    } else {
      assert priceCents * quantity >= 0;
    }
  }
}
