/** The baud rate divisor of the serial port: the register divides the prescaled clock by its value plus one.
  The macros compute in 32 bits without sign. */
module BaudRate {
  import opened Bytes

  const UINT32 := 0x1_0000_0000

  /** The clock that the divisor is applied to. */
  function Prescaled(clock: nat, doubleSpeed: bool): nat {
    if doubleSpeed then clock / 8 else clock / 16
  }

  function Wrapped(a: int): nat {
    a % UINT32
  }

  function Quotient(a: nat, b: nat): (q: nat)
    requires b > 0
  {
    a / b
  }

  /** The value of the macro, before it is put in the register. */
  function MacroValue(clock: nat, baud: nat, doubleSpeed: bool): nat
    requires baud > 0
  {
    Wrapped(Quotient(Wrapped(Prescaled(clock, doubleSpeed) + baud / 2), baud) - 1)
  }

  /** The divisor that the macro aims at. */
  function Rounded(f: nat, baud: nat): nat
    requires baud > 0
  {
    Quotient(f + baud / 2, baud)
  }

  function Distance(a: int, b: int): nat {
    if a < b then b - a else a - b
  }

  predicate AtLeastAsNear(f: nat, baud: nat, d: nat, e: nat) {
    Distance(f, d * baud) <= Distance(f, e * baud)
  }

  // The nearest product

  /** No sum overflows, and the subtraction underflows exactly when the prescaled clock is less than half of the
    baud rate, rounded up. Otherwise no register value gives a product nearer to the prescaled clock, and the product
    is off by no more than half of the baud rate. */
  lemma DivisorIsNearest(clock: nat, baud: nat, doubleSpeed: bool)
    requires clock < 0x1_0000_0000 && 0 < baud < 0x1_0000_0000
    ensures var f, v := if doubleSpeed then clock / 8 else clock / 16, MacroValue(clock, baud, doubleSpeed);
            && (v == 0xFFFF_FFFF <==> f < baud - baud / 2)
            && (f >= baud - baud / 2 ==>
                  && v + 1 == Rounded(f, baud)
                  && Distance(f, (v + 1) * baud) <= baud / 2
                  && forall e: nat :: AtLeastAsNear(f, baud, Rounded(f, baud), e))
  {
    var f := Prescaled(clock, doubleSpeed);
    RoundedIsPositiveIff(f, baud);
    ValueIsRounded(clock, baud, doubleSpeed);
    forall e: nat ensures AtLeastAsNear(f, baud, Rounded(f, baud), e) {
      RoundedIsNearest(f, baud, e);
    }
    RoundedIsNearest(f, baud, 0);
  }

  lemma ValueIsRounded(clock: nat, baud: nat, doubleSpeed: bool)
    requires clock < 0x1_0000_0000 && 0 < baud < 0x1_0000_0000
    ensures var d := Rounded(Prescaled(clock, doubleSpeed), baud);
            && d < UINT32
            && MacroValue(clock, baud, doubleSpeed) == if d == 0 then UINT32 - 1 else d - 1
  {
    var f := Prescaled(clock, doubleSpeed);
    RoundedIsPositiveIff(f, baud);
    WrappedIs(f + baud / 2);
    WrappedIs(Rounded(f, baud) - 1);
  }

  lemma WrappedIs(a: int)
    requires -1 <= a < UINT32
    ensures Wrapped(a) == if a == -1 then UINT32 - 1 else a
  {
  }

  lemma RoundedIsNearest(f: nat, baud: nat, e: nat)
    requires baud > 0
    ensures Distance(f, Rounded(f, baud) * baud) <= baud / 2
    ensures AtLeastAsNear(f, baud, Rounded(f, baud), e)
  {
    var d := Rounded(f, baud);
    var rest := (f + baud / 2) % baud;
    assert d * baud + rest == f + baud / 2;
    if e < d {
      ProductGrows(e + 1, d, baud);
      assert (e + 1) * baud == e * baud + baud;
    } else if e > d {
      ProductGrows(d + 1, e, baud);
      assert (d + 1) * baud == d * baud + baud;
    }
  }

  lemma RoundedIsPositiveIff(f: nat, baud: nat)
    requires baud > 0
    ensures Rounded(f, baud) == 0 <==> f < baud - baud / 2
    ensures Rounded(f, baud) <= f + baud / 2
  {
    var d := Rounded(f, baud);
    assert d * baud + (f + baud / 2) % baud == f + baud / 2;
    if d > 0 {
      ProductGrows(1, d, baud);
    }
    ProductGrows(1, baud, d);
  }

  lemma ProductGrows(a: nat, b: nat, c: nat)
    requires a <= b
    ensures a * c <= b * c
  {
  }

  // The nearest rate

  /** Whether the divisor `d` gives a rate at least as near to `baud` as `e` does. The rate is the prescaled clock
    over the divisor; both sides are multiplied by both divisors here. */
  predicate RateAtLeastAsNear(f: nat, baud: nat, d: nat, e: nat) {
    Distance(f, d * baud) * e <= Distance(f, e * baud) * d
  }

  /** The divisor rounds down, but the rate of the next one is nearer. */
  predicate MissesNearestRate(f: nat, baud: nat)
    requires baud > 0
  {
    var low, rest := f / baud, f % baud;
    low > 0 && 2 * rest < baud && low * baud < rest * (2 * low + 1)
  }

  /** The nearest product does not always give the nearest rate: it does unless the quotient is rounded down and
    still the remainder is more than low / (2 low + 1) of the baud rate, low being the whole quotient. */
  lemma RateIsNearestIff(f: nat, baud: nat)
    requires baud > 0 && f >= baud - baud / 2
    ensures (forall e: nat :: e > 0 ==> RateAtLeastAsNear(f, baud, Rounded(f, baud), e))
            <==> !MissesNearestRate(f, baud)
  {
    var low, d := f / baud, Rounded(f, baud);
    RoundedIsPositiveIff(f, baud);
    NearerNeighbour(f, baud);
    if !MissesNearestRate(f, baud) {
      forall e: nat | e > 0 ensures RateAtLeastAsNear(f, baud, d, e) {
        var neighbour := if e <= low then low else low + 1;
        NearestOnItsSide(f, baud, e);
        RateIsTransitive(f, baud, d, neighbour, e);
      }
    }
  }

  lemma NearerNeighbour(f: nat, baud: nat)
    requires baud > 0 && Rounded(f, baud) > 0
    ensures var low, d := f / baud, Rounded(f, baud);
            if MissesNearestRate(f, baud) then !RateAtLeastAsNear(f, baud, d, low + 1)
            else RateAtLeastAsNear(f, baud, d, low) && RateAtLeastAsNear(f, baud, d, low + 1)
  {
    var low, rest := f / baud, f % baud;
    RoundsUpIff(f, baud);
    Neighbours(f, baud);
    if 2 * rest >= baud {
      UpperHalf(rest, low, baud);
      assert RateAtLeastAsNear(f, baud, low + 1, low);
    } else {
      assert RateAtLeastAsNear(f, baud, low, low);
    }
  }

  lemma UpperHalf(rest: nat, low: nat, baud: nat)
    requires 2 * rest >= baud
    ensures rest * (2 * low + 1) >= low * baud
  {
    ProductGrows(baud, 2 * rest, low);
    assert rest * (2 * low + 1) == 2 * rest * low + rest;
  }

  lemma RoundsUpIff(f: nat, baud: nat)
    requires baud > 0
    ensures Rounded(f, baud) == if 2 * (f % baud) < baud then f / baud else f / baud + 1
  {
    var low, rest, half := f / baud, f % baud, baud / 2;
    assert f + half == low * baud + (rest + half);
    if 2 * rest < baud {
      QuotientIs(f + half, baud, low, rest + half);
    } else {
      assert (low + 1) * baud == low * baud + baud;
      QuotientIs(f + half, baud, low + 1, rest + half - baud);
    }
  }

  lemma QuotientIs(a: nat, b: nat, q: nat, r: nat)
    requires r < b && a == q * b + r
    ensures a / b == q
  {
    var p, s := a / b, a % b;
    assert (p - q) * b == r - s;
    if p != q {
      ProductGrows(1, if p > q then p - q else q - p, b);
    }
  }

  /** Which of the two divisors about the exact quotient has the nearer rate. */
  lemma Neighbours(f: nat, baud: nat)
    requires baud > 0
    ensures var low, rest := f / baud, f % baud;
            && (RateAtLeastAsNear(f, baud, low, low + 1) <==> rest * (2 * low + 1) <= low * baud)
            && (RateAtLeastAsNear(f, baud, low + 1, low) <==> rest * (2 * low + 1) >= low * baud)
  {
    var low, rest := f / baud, f % baud;
    assert f == low * baud + rest;
    assert (low + 1) * baud == low * baud + baud;
    assert Distance(f, low * baud) == rest && Distance(f, (low + 1) * baud) == baud - rest;
    assert (baud - rest) * low == low * baud - rest * low;
    assert rest * (low + 1) + rest * low == rest * (2 * low + 1);
  }

  /** Below the exact quotient a greater divisor is nearer, above it a smaller one. */
  lemma NearestOnItsSide(f: nat, baud: nat, e: nat)
    requires baud > 0
    ensures var low := f / baud;
            RateAtLeastAsNear(f, baud, if e <= low then low else low + 1, e)
  {
    var low := f / baud;
    assert f == low * baud + f % baud;
    if e <= low {
      ProductGrows(e, low, baud);
      ProductGrows(e, low, f);
      assert (f - low * baud) * e == e * f - low * baud * e;
      assert (f - e * baud) * low == low * f - low * baud * e;
    } else {
      var high := low + 1;
      assert high * baud == low * baud + baud;
      ProductGrows(high, e, baud);
      ProductGrows(high, e, f);
      assert (high * baud - f) * e == high * baud * e - e * f;
      assert (e * baud - f) * high == high * baud * e - high * f;
    }
  }

  lemma RateIsTransitive(f: nat, baud: nat, a: nat, b: nat, c: nat)
    requires b > 0
    requires RateAtLeastAsNear(f, baud, a, b) && RateAtLeastAsNear(f, baud, b, c)
    ensures RateAtLeastAsNear(f, baud, a, c)
  {
    Crosswise(Distance(f, a * baud), a, Distance(f, b * baud), b, Distance(f, c * baud), c);
  }

  /** Fractions compare transitively. */
  lemma Crosswise(x: nat, a: nat, y: nat, b: nat, z: nat, c: nat)
    requires b > 0 && x * b <= y * a && y * c <= z * b
    ensures x * c <= z * a
  {
    ProductGrows(x * b, y * a, c);
    ProductGrows(y * c, z * b, a);
    Exchanged(x, b, c);
    Exchanged(y, a, c);
    Exchanged(z, b, a);
    Cancelled(x * c, z * a, b);
  }

  lemma Exchanged(a: nat, b: nat, c: nat)
    ensures a * b * c == a * c * b
  {
    assert b * c == c * b;
    assert a * b * c == a * (b * c);
  }

  lemma ProductGrowsStrictly(a: nat, b: nat, c: nat)
    requires a < b && c > 0
    ensures a * c < b * c
  {
    ProductGrows(a + 1, b, c);
    assert (a + 1) * c == a * c + c;
  }

  lemma Cancelled(a: nat, b: nat, c: nat)
    requires c > 0 && a * c <= b * c
    ensures a <= b
  {
    if a > b {
      ProductGrowsStrictly(b, a, c);
    }
  }

  /** The panel's clock of 16 MHz and a baud rate of 700000 are such a case. */
  lemma NearestDivisorMayMissTheNearestRate()
    ensures MissesNearestRate(Prescaled(16000000, false), 700000)
  {
  }

  class SerialPort {
    var ubrr: nat

    /** The register holds sixteen bits, so it keeps the macro's value exactly when that is below 2^16. */
    method SetBaudRate(clock: nat, baud: nat, doubleSpeed: bool)
      requires clock < 0x1_0000_0000 && 0 < baud < 0x1_0000_0000
      modifies this
      ensures ubrr == MacroValue(clock, baud, doubleSpeed) % 0x1_0000
      ensures ubrr == MacroValue(clock, baud, doubleSpeed) <==> MacroValue(clock, baud, doubleSpeed) < 0x1_0000
    {
      ubrr := MacroValue(clock, baud, doubleSpeed) % UINT16;
    }
  }
}
