/** The choice of unit in a size limit's text (reader.go:83-105). */
module SizeText {
  import opened Prelude

  const KILOBYTE := 1000
  const KIBIBYTE := 1024

  function Pow(base: nat, n: nat): nat {
    if n == 0 then 1 else Pow(base, n - 1) * base
  }

  /** A plain number of bytes, or bytes / div with the exp-th of the six suffixes k, M, G, T, P, E. */
  datatype Size = Plain(bytes: int) | Scaled(unit: int, div: int, exp: nat)

  function Unit(b: int): nat {
    if b % 1024 == 0 then 1024 else 1000
  }

  lemma {:induction false} PowMonotone(base: nat, m: nat, n: nat)
    requires base >= 1 && m <= n
    ensures 1 <= Pow(base, m) <= Pow(base, n)
    decreases n
  {
    if m < n {
      PowMonotone(base, m, n - 1);
      assert Pow(base, n - 1) * base >= Pow(base, n - 1);
    } else if n > 0 {
      PowMonotone(base, n - 1, n - 1);
      assert Pow(base, n - 1) * base >= 1;
    }
  }

  /** No power of either unit below 2^63 needs a seventh suffix. */
  lemma SuffixExists(unit: nat, exp: nat)
    requires unit == KILOBYTE || unit == KIBIBYTE
    requires Pow(unit, exp + 1) < TWO_63
    ensures exp <= 5
  {
    if exp >= 6 {
      assert Pow(unit, 3) == unit * unit * unit;
      assert Pow(unit, 7) == Pow(unit, 3) * unit * unit * unit * unit >= TWO_63;
      PowMonotone(unit, 7, exp + 1);
    }
  }

  /** `n` is b / div. */
  predicate Quotient(b: int, n: nat, div: nat) {
    n * div <= b < (n + 1) * div
  }

  lemma Scale(x: nat, y: nat, z: nat)
    requires x <= y
    ensures x * z <= y * z
  {
  }

  lemma Regroup(x: nat, y: nat, z: nat)
    ensures x * (y * z) == (x * z) * y
  {
  }

  lemma Regrouped(b: int, n: nat, m: nat, div: nat, unit: nat)
    requires 1 <= m && m * unit <= n && n + 1 <= (m + 1) * unit && Quotient(b, n, div)
    ensures Quotient(b, m, div * unit) && div * unit <= b
  {
    Scale(m * unit, n, div);
    Scale(n + 1, (m + 1) * unit, div);
    assert (m * unit) * div <= b < ((m + 1) * unit) * div;
    Regroup(m, div, unit);
    Regroup(m + 1, div, unit);
    Scale(1, m, div * unit);
  }

  /** Dividing the quotient by the unit scales the divisor by it. */
  lemma NextDigit(b: int, n: nat, div: nat, unit: nat)
    requires unit == KILOBYTE || unit == KIBIBYTE
    requires unit <= n && Quotient(b, n, div)
    ensures Quotient(b, n / unit, div * unit)
    ensures 1 <= n / unit < n && div * unit <= b
  {
    if unit == KILOBYTE {
      Regrouped(b, n, n / 1000, div, 1000);
    } else {
      Regrouped(b, n, n / 1024, div, 1024);
    }
  }

  lemma FirstDigit(b: int, unit: nat)
    requires 0 < unit <= b
    ensures Quotient(b, b / unit, unit) && b / unit >= 1
  {
  }

  lemma LastDigit(b: int, n: nat, div: nat, unit: nat)
    requires 1 <= n < unit && Quotient(b, n, div)
    ensures div <= b < div * unit
  {
  }

  /** The loop ends with div <= b < div * unit, without div overflowing and with a suffix for exp. */
  method BytesToSI(b: int) returns (r: Size)
    requires IsInt64(b)
    ensures b < Unit(b) ==> r == Plain(b)
    ensures b >= Unit(b) ==>
              && r.Scaled? && r.unit == Unit(b) && r.div == Pow(r.unit, r.exp + 1)
              && r.div <= b < r.div * r.unit
              && r.exp <= 5
  {
    var unit := KILOBYTE;
    if b % KIBIBYTE == 0 {
      unit := KIBIBYTE;
    }
    if b < unit {
      return Plain(b);
    }
    var div, exp := unit, 0;
    var n := b / unit;
    FirstDigit(b, unit);
    while n >= unit
      invariant div == Pow(unit, exp + 1) && 0 < div <= b
      invariant n >= 1 && Quotient(b, n, div)
      decreases n
    {
      NextDigit(b, n, div, unit);
      div := div * unit;
      exp := exp + 1;
      n := n / unit;
    }
    LastDigit(b, n, div, unit);
    SuffixExists(unit, exp);
    r := Scaled(unit, div, exp);
  }

  /** That exponent is the only one with b between two successive powers. */
  lemma SizeUnique(b: int, unit: nat, d: nat, e: nat)
    requires unit >= 1
    requires Pow(unit, d + 1) <= b < Pow(unit, d + 2)
    requires Pow(unit, e + 1) <= b < Pow(unit, e + 2)
    ensures d == e
  {
    if d < e {
      PowMonotone(unit, d + 2, e + 1);
    } else if e < d {
      PowMonotone(unit, e + 2, d + 1);
    }
  }
}
