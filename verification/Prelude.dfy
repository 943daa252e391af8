/** Shared value types. */
module Prelude {

  datatype Option<+T> = None | Some(value: T)

  /** One octet of memory, of a sector or of a message. */
  newtype Byte = b: int | 0 <= b < 256

  /** The unit of a block device. */
  const SECTOR := 512

  type Sector = s: seq<Byte> | |s| == SECTOR witness seq(SECTOR, _ => 0)

  ghost predicate Distinct<T>(s: seq<T>) {
    forall i, j :: 0 <= i < j < |s| ==> s[i] != s[j]
  }

  function Min(a: nat, b: nat): nat { if a <= b then a else b }

  function Zeros(n: nat): (r: seq<Byte>)
    ensures |r| == n && forall i :: 0 <= i < n ==> r[i] == 0
  {
    seq(n, _ => 0 as Byte)
  }

  /** Quotient and remainder are unique. */
  lemma DivMod(a: int, n: int, q: int, r: int)
    requires n > 0 && 0 <= r < n && a == n * q + r
    ensures a / n == q && a % n == r
  {
    var d := a / n - q;
    assert n * d == r - a % n;
    assert d >= 1 ==> n * d >= n;
    assert d <= -1 ==> n * d <= -n;
  }

  // ----- Powers of two -----

  predicate IsPow2(n: nat) { n == 1 || (n > 0 && n % 2 == 0 && IsPow2(n / 2)) }

  /** The smaller of two powers of two divides the larger. */
  lemma {:induction false} PowersDivide(a: nat, b: nat)
    requires IsPow2(a) && IsPow2(b) && a <= b
    ensures b % a == 0
    decreases b
  {
    if a > 1 {
      PowersDivide(a / 2, b / 2);
      var q := b / 2 / (a / 2);
      assert b / 2 == a / 2 * q + b / 2 % (a / 2);
      assert b == 2 * (b / 2) && a == 2 * (a / 2);
      assert b == a * q;
      DivMod(b, a, q, 0);
    }
  }

  lemma FourAndPage()
    ensures IsPow2(4) && IsPow2(4096)
  {
    assert IsPow2(64);
  }

  // ----- ALIGN_UP -----

  predicate Bit(x: nat, i: nat) { if i == 0 then x % 2 == 1 else Bit(x / 2, i - 1) }

  /** The bitwise conjunction. */
  function And(x: nat, m: nat): (r: nat)
    ensures r <= x && r <= m
  {
    if x == 0 || m == 0 then 0 else (if x % 2 == 1 && m % 2 == 1 then 1 else 0) + 2 * And(x / 2, m / 2)
  }

  lemma {:induction false} AndBits(x: nat, m: nat, i: nat)
    ensures Bit(And(x, m), i) <==> Bit(x, i) && Bit(m, i)
    decreases i
  {
    if x == 0 || m == 0 {
      ZeroBits(i);
    } else if i > 0 {
      AndBits(x / 2, m / 2, i - 1);
    }
  }

  lemma {:induction false} ZeroBits(i: nat)
    ensures !Bit(0, i)
  {
    if i > 0 { ZeroBits(i - 1); }
  }

  lemma {:induction false} AndSelf(x: nat)
    ensures And(x, x) == x
  {
    if x > 0 { AndSelf(x / 2); }
  }

  /** The low bits are the remainder of a power of two. */
  lemma {:induction false} AndPow2(x: nat, a: nat)
    requires IsPow2(a)
    ensures And(x, a - 1) == x % a
    decreases a
  {
    if x == 0 {
      DivMod(x, a, 0, 0);
    } else if a > 1 {
      AndPow2(x / 2, a / 2);
      DoubledMod(x, a / 2);
      hide And, IsPow2;
      AndStep(x, a - 1);
    }
  }

  lemma AndStep(x: nat, m: nat)
    requires x > 0 && m > 0
    ensures And(x, m) == (if x % 2 == 1 && m % 2 == 1 then 1 else 0) + 2 * And(x / 2, m / 2)
  {
  }

  lemma DoubledMod(x: nat, b: nat)
    requires b > 0
    ensures x % (2 * b) == 2 * (x / 2 % b) + x % 2
  {
    var q, r := x / 2 / b, x / 2 % b;
    assert x / 2 == b * q + r;
    assert 2 * (b * q) == 2 * b * q;
    DivMod(x, 2 * b, q, 2 * r + x % 2);
  }

  /** ALIGN_UP: (x + a - 1) & ~(a - 1), which clears the bits of a - 1. */
  function AlignUp(x: nat, a: nat): nat
    requires a > 0
  {
    x + a - 1 - And(x + a - 1, a - 1)
  }

  /** It never goes down nor up by a or more; for a power of two it is the next multiple. */
  lemma AlignUpBounds(x: nat, a: nat)
    requires a > 0
    ensures x <= AlignUp(x, a) < x + a
    ensures IsPow2(a) ==> AlignUp(x, a) == (x + a - 1) / a * a && AlignUp(x, a) % a == 0
  {
    hide And, IsPow2;
    if IsPow2(a) {
      AndPow2(x + a - 1, a);
      Floor(x + a - 1, a);
    }
  }

  lemma Floor(y: nat, a: nat)
    requires a > 0
    ensures y - y % a == y / a * a && (y - y % a) % a == 0
  {
    var q := y / a;
    assert y == a * q + y % a;
    DivMod(a * q, a, q, 0);
  }

  /** One is rounded up to the lowest bit of a. */
  lemma {:induction false} OneRounded(a: nat)
    requires a > 0
    ensures if IsPow2(a) then AlignUp(1, a) == a else 0 < AlignUp(1, a) < a
  {
    if a > 1 {
      AndStep(a, a - 1);
      hide And;
      if a % 2 == 0 {
        assert (a - 1) / 2 == a / 2 - 1;
        OneRounded(a / 2);
      } else {
        assert (a - 1) / 2 == a / 2;
        AndSelf(a / 2);
      }
    }
  }

  lemma SixRounded()
    ensures AlignUp(1, 6) == 2
  {
    assert And(6, 5) == 4;
  }

  /** It gives multiples of a for every number if and only if a is a power of two. */
  lemma AlignsExactly(a: nat)
    requires a > 0
    ensures (forall x: nat :: AlignUp(x, a) % a == 0) <==> IsPow2(a)
  {
    if IsPow2(a) {
      forall x: nat ensures AlignUp(x, a) % a == 0 { AlignUpBounds(x, a); }
    } else {
      hide AlignUp;
      OneRounded(a);
      DivMod(AlignUp(1, a), a, 0, AlignUp(1, a));
    }
  }

  lemma MulGrows(a: nat, b: nat, k: nat)
    requires a < b
    ensures a * k + k <= b * k
  {
    assert (b - a - 1) * k >= 0;
    assert b * k == a * k + k + (b - a - 1) * k;
  }

  /** Distinct numbers in a range are no more than the range is long. */
  lemma {:induction false} DistinctBound(q: seq<nat>, lo: nat, hi: nat)
    requires Distinct(q) && lo <= hi && forall i :: 0 <= i < |q| ==> lo <= q[i] < hi
    ensures |q| <= hi - lo
    decreases hi - lo
  {
    if q != [] {
      assert lo <= q[0] < hi;
      if hi - 1 in q {
        var i :| 0 <= i < |q| && q[i] == hi - 1;
        DistinctBound(q[..i] + q[i + 1..], lo, hi - 1);
      } else {
        DistinctBound(q, lo, hi - 1);
      }
    }
  }
}
