// Machine integers, congruence, positional values and two's complement bit operations.

module MachineInts {
  const TWO32: int := 0x1_0000_0000
  const TWO64: int := 0x1_0000_0000_0000_0000

  type byte = x: int | 0 <= x < 0x100
  type u16 = x: int | 0 <= x < 0x1_0000
  type u32 = x: int | 0 <= x < 0x1_0000_0000
  type u64 = x: int | 0 <= x < 0x1_0000_0000_0000_0000
  type i32 = x: int | -0x8000_0000 <= x < 0x8000_0000
  type i64 = x: int | -0x8000_0000_0000_0000 <= x < 0x8000_0000_0000_0000
}

module DivMod {
  // Moving the quotient of a limb one position up keeps the weighted sum.
  lemma CarryUp(p: int, b: int, x: int)
    requires b > 0
    ensures p * x == p * (x % b) + (b * p) * (x / b)
  {
    var q, r := x / b, x % b;
    assert x == b * q + r;
    Distrib(p, b * q, r);
    assert p * (b * q) == (b * p) * q;
  }

  lemma MulAssoc(x: int, y: int, z: int)
    ensures x * (y * z) == (x * y) * z
  {
  }

  lemma Distrib(p: int, x: int, y: int)
    ensures p * (x + y) == p * x + p * y
    ensures p * (x - y) == p * x - p * y
  {
  }

  lemma MulLe(a: int, b: int, m: int)
    requires a <= b && m >= 0
    ensures a * m <= b * m
  {
  }

  lemma RangeStep(b: int, d: int, v: int, p: int)
    requires 0 <= d < b && 0 <= v < p
    ensures 0 <= d + b * v < b * p
  {
    MulLe(0, v, b);
    MulLe(v, p - 1, b);
  }

  lemma QuotientBelow(x: int, b: int, p: int)
    requires b > 0 && 0 <= x < b * p
    ensures 0 <= x / b < p
  {
    if x / b >= p {
      MulLe(p, x / b, b);
    }
  }

  lemma SmallMultiple(d: int, m: int)
    requires m > 0 && -m < d * m < m
    ensures d == 0
  {
    assert d >= 1 ==> d * m >= m;
    assert d <= -1 ==> d * m <= -m;
  }

  lemma QuotRem(x: int, q: int, r: int, m: int)
    requires m > 0 && 0 <= r < m && x == q * m + r
    ensures x / m == q && x % m == r
  {
    var d := x / m - q;
    assert d * m == r - x % m by {
      assert x == (x / m) * m + x % m;
      assert d * m == (x / m) * m - q * m;
    }
    SmallMultiple(d, m);
  }

  lemma DigitStep(b: int, d: int, e: int, v: int, w: int)
    requires 0 <= d < b && 0 <= e < b && d + b * v == e + b * w
    ensures d == e && v == w
  {
    Distrib(b, v, w);
    SmallMultiple(v - w, b);
  }

  lemma Nest(q: int, n: int, t: int, m: int, r: int)
    ensures (q * n + t) * m + r == q * (m * n) + (m * t + r)
  {
    Distrib(m, q * n, t);
    MulAssoc(q, n, m);
  }

  // One term of a schoolbook row, by which the row's sum grows from u0 to u1.
  lemma RowStep(pi: int, pj: int, x: int, y: int, u0: int, u1: int)
    requires u1 == u0 + pj * y
    ensures (pi * pj) * (x * y) == pi * (x * u1) - pi * (x * u0)
  {
    var z := pj * y;
    Distrib(x, u0, z);
    Distrib(pi, x * u0, x * z);
    assert (pi * pj) * (x * y) == pi * (x * (pj * y));
  }

  // Dividing twice is dividing by the product.
  lemma DivDiv(x: int, m: int, n: int)
    requires m > 0 && n > 0
    ensures m * n > 0
    ensures x / (m * n) == (x / m) / n
    ensures x % (m * n) == m * ((x / m) % n) + x % m
  {
    var r, q2, r2 := x % m, (x / m) / n, (x / m) % n;
    RangeStep(m, r, r2, n);
    Nest(q2, n, r2, m, r);
    QuotRem(x, q2, m * r2 + r, m * n);
  }
}

// Congruence modulo m, always obtained from an explicit multiple.
module Modular {
  import opened DivMod

  ghost predicate Cong(a: int, b: int, m: int)
    requires m > 0
  {
    a % m == b % m
  }

  lemma FromMultiple(a: int, b: int, k: int, m: int)
    requires m > 0 && a == b + k * m
    ensures Cong(a, b, m)
  {
    assert a == (b / m + k) * m + b % m by {
      assert b == (b / m) * m + b % m;
      assert (b / m + k) * m == (b / m) * m + k * m;
    }
    QuotRem(a, b / m + k, b % m, m);
  }

  lemma ToMultiple(a: int, b: int, m: int) returns (k: int)
    requires m > 0 && Cong(a, b, m)
    ensures a == b + k * m
  {
    k := a / m - b / m;
    assert a == (a / m) * m + a % m;
    assert b == (b / m) * m + b % m;
    assert k * m == (a / m) * m - (b / m) * m;
  }

  lemma CongMod(a: int, m: int)
    requires m > 0
    ensures Cong(a % m, a, m)
  {
    FromMultiple(a, a % m, a / m, m);
  }

  lemma CongAdd(a: int, b: int, c: int, d: int, m: int)
    requires m > 0 && Cong(a, b, m) && Cong(c, d, m)
    ensures Cong(a + c, b + d, m)
    ensures Cong(a - c, b - d, m)
  {
    var k := ToMultiple(a, b, m);
    var l := ToMultiple(c, d, m);
    assert (k + l) * m == k * m + l * m;
    assert (k - l) * m == k * m - l * m;
    FromMultiple(a + c, b + d, k + l, m);
    FromMultiple(a - c, b - d, k - l, m);
  }

  lemma CongMul(a: int, b: int, c: int, d: int, m: int)
    requires m > 0 && Cong(a, b, m) && Cong(c, d, m)
    ensures Cong(a * c, b * d, m)
  {
    var k := ToMultiple(a, b, m);
    var l := ToMultiple(c, d, m);
    var q := b * l + k * d + k * l * m;
    assert a * c == b * d + q * m by {
      assert a * c == (b + k * m) * (d + l * m);
      assert (b + k * m) * (d + l * m) == b * d + b * (l * m) + (k * m) * d + (k * m) * (l * m);
      assert b * (l * m) == (b * l) * m;
      assert (k * m) * d == (k * d) * m;
      assert (k * m) * (l * m) == (k * l * m) * m;
      assert q * m == (b * l) * m + (k * d) * m + (k * l * m) * m;
    }
    FromMultiple(a * c, b * d, q, m);
  }

  function Power(x: int, e: nat): int
  {
    if e == 0 then 1 else x * Power(x, e - 1)
  }

  lemma {:induction false} PowerAdd(x: int, m: nat, n: nat)
    ensures Power(x, m + n) == Power(x, m) * Power(x, n)
  {
    if m > 0 {
      PowerAdd(x, m - 1, n);
      var p, q := Power(x, m - 1), Power(x, n);
      assert x * (p * q) == (x * p) * q;
    }
  }

  lemma {:induction false} PowerCong(x: int, y: int, e: nat, m: int)
    requires m > 0 && Cong(x, y, m)
    ensures Cong(Power(x, e), Power(y, e), m)
  {
    if e > 0 {
      PowerCong(x, y, e - 1, m);
      CongMul(x, y, Power(x, e - 1), Power(y, e - 1), m);
    }
  }
}

// The number a little-endian list of (possibly signed, possibly oversized) limbs stands for.
module Radix {
  import opened DivMod

  function Pow(b: int, e: nat): int
  {
    if e == 0 then 1 else b * Pow(b, e - 1)
  }

  lemma {:induction false} PowPos(b: int, e: nat)
    requires b > 0
    ensures Pow(b, e) > 0
  {
    if e > 0 {
      PowPos(b, e - 1);
      assert b * Pow(b, e - 1) > 0;
    }
  }

  lemma {:induction false} PowAdd(b: int, m: nat, n: nat)
    ensures Pow(b, m + n) == Pow(b, m) * Pow(b, n)
  {
    if m > 0 {
      PowAdd(b, m - 1, n);
      var p, q := Pow(b, m - 1), Pow(b, n);
      assert b * (p * q) == (b * p) * q;
    }
  }

  function Val(b: int, s: seq<int>): int
  {
    if s == [] then 0 else s[0] + b * Val(b, s[1..])
  }

  lemma {:induction false} ValConcat(b: int, s: seq<int>, t: seq<int>)
    ensures Val(b, s + t) == Val(b, s) + Pow(b, |s|) * Val(b, t)
  {
    if s == [] {
      assert s + t == t;
    } else {
      ValConcat(b, s[1..], t);
      assert (s + t)[1..] == s[1..] + t;
      var p, v := Pow(b, |s| - 1), Val(b, t);
      assert b * (p * v) == (b * p) * v;
      assert b * (Val(b, s[1..]) + p * v) == b * Val(b, s[1..]) + b * (p * v);
    }
  }

  lemma ValSnoc(b: int, s: seq<int>, x: int)
    ensures Val(b, s + [x]) == Val(b, s) + Pow(b, |s|) * x
  {
    ValConcat(b, s, [x]);
    assert Val(b, [x]) == x by { assert [x][1..] == []; assert Val(b, []) == 0; }
  }

  // Changing one limb changes the value by the difference times the limb's weight.
  lemma {:induction false} ValUpdate(b: int, s: seq<int>, i: nat, v: int)
    requires i < |s|
    ensures Val(b, s[i := v]) == Val(b, s) + Pow(b, i) * (v - s[i])
  {
    if i == 0 {
      assert s[0 := v][1..] == s[1..];
    } else {
      ValUpdate(b, s[1..], i - 1, v);
      assert s[i := v][1..] == s[1..][i - 1 := v];
      var p, d := Pow(b, i - 1), v - s[i];
      assert b * (Val(b, s[1..]) + p * d) == b * Val(b, s[1..]) + b * (p * d);
      assert b * (p * d) == (b * p) * d;
    }
  }

  ghost predicate Digits(b: int, s: seq<int>)
  {
    forall k :: 0 <= k < |s| ==> 0 <= s[k] < b
  }

  lemma {:induction false} ValRange(b: int, s: seq<int>)
    requires b > 0 && Digits(b, s)
    ensures 0 <= Val(b, s) < Pow(b, |s|)
  {
    if s != [] {
      ValRange(b, s[1..]);
      RangeStep(b, s[0], Val(b, s[1..]), Pow(b, |s| - 1));
    }
  }

  // Digits are determined by their value.
  lemma {:induction false} ValInjective(b: int, s: seq<int>, t: seq<int>)
    requires b > 0 && Digits(b, s) && Digits(b, t) && |s| == |t|
    requires Val(b, s) == Val(b, t)
    ensures s == t
  {
    if s != [] {
      DigitStep(b, s[0], t[0], Val(b, s[1..]), Val(b, t[1..]));
      ValInjective(b, s[1..], t[1..]);
      assert s == [s[0]] + s[1..] && t == [t[0]] + t[1..];
    }
  }

  // The n little-endian digits of x.
  function Spell(b: int, n: nat, x: int): (s: seq<int>)
    requires b > 0
    ensures |s| == n && Digits(b, s)
  {
    if n == 0 then [] else [x % b] + Spell(b, n - 1, x / b)
  }

  // Spelling in n digits keeps the value modulo their power.
  lemma {:induction false} SpellMod(b: int, n: nat, x: int)
    requires b > 0 && x >= 0
    ensures Pow(b, n) > 0 && Val(b, Spell(b, n, x)) == x % Pow(b, n)
  {
    PowPos(b, n);
    if n > 0 {
      SpellMod(b, n - 1, x / b);
      SpellCons(b, n, x);
      DivDiv(x, b, Pow(b, n - 1));
    }
  }

  lemma SpellCons(b: int, n: nat, x: int)
    requires b > 0 && n > 0
    ensures Val(b, Spell(b, n, x)) == x % b + b * Val(b, Spell(b, n - 1, x / b))
  {
    assert Spell(b, n, x)[1..] == Spell(b, n - 1, x / b);
  }

  lemma SpellValue(b: int, n: nat, x: int)
    requires b > 0 && 0 <= x < Pow(b, n)
    ensures Val(b, Spell(b, n, x)) == x
  {
    SpellMod(b, n, x);
    QuotRem(x, 0, x, Pow(b, n));
  }

  function Zeros(n: nat): (s: seq<int>)
    ensures |s| == n && forall k :: 0 <= k < n ==> s[k] == 0
  {
    seq(n, _ => 0)
  }

  lemma {:induction false} ValZeros(b: int, s: seq<int>)
    requires forall k :: 0 <= k < |s| ==> s[k] == 0
    ensures Val(b, s) == 0
  {
    if s != [] { ValZeros(b, s[1..]); }
  }
}

// Bitwise operations of sign-extended machine words, as infinite two's complement.
module Bits {
  import opened DivMod

  function Mag(x: int): nat { if x >= 0 then x else -1 - x }

  function And(x: int, y: int): int
    decreases Mag(x) + Mag(y)
  {
    if x == 0 || y == 0 then 0
    else if x == -1 then y
    else if y == -1 then x
    else 2 * And(x / 2, y / 2) + (if x % 2 == 1 && y % 2 == 1 then 1 else 0)
  }

  function Xor(x: int, y: int): int
    decreases Mag(x) + Mag(y)
  {
    if x == 0 then y
    else if y == 0 then x
    else if x == -1 then -1 - y
    else if y == -1 then -1 - x
    else 2 * Xor(x / 2, y / 2) + (if x % 2 != y % 2 then 1 else 0)
  }

  function Not(x: int): int { -1 - x }

  function Or(x: int, y: int): int { Not(And(Not(x), Not(y))) }

  function Pow2(k: nat): (p: int)
    ensures p >= 1
  {
    if k == 0 then 1 else 2 * Pow2(k - 1)
  }

  lemma {:induction false} Pow2Add(m: nat, n: nat)
    ensures Pow2(m + n) == Pow2(m) * Pow2(n)
  {
    if m > 0 {
      Pow2Add(m - 1, n);
      MulAssoc(2, Pow2(m - 1), Pow2(n));
    }
  }

  // Arithmetic shift right: the machine's >> on a signed or unsigned word.
  function Shr(x: int, k: nat): int { x / Pow2(k) }

  lemma AndStep(x: int, y: int)
    ensures And(x, y) / 2 == And(x / 2, y / 2)
    ensures And(x, y) % 2 == if x % 2 == 1 && y % 2 == 1 then 1 else 0
  {
  }

  lemma XorStep(x: int, y: int)
    ensures Xor(x, y) / 2 == Xor(x / 2, y / 2)
    ensures Xor(x, y) % 2 == if x % 2 != y % 2 then 1 else 0
  {
  }

  lemma {:induction false} AndComm(x: int, y: int)
    ensures And(x, y) == And(y, x)
    decreases Mag(x) + Mag(y)
  {
    if x != 0 && y != 0 && x != -1 && y != -1 { AndComm(x / 2, y / 2); }
  }

  lemma OrComm(x: int, y: int)
    ensures Or(x, y) == Or(y, x)
  {
    AndComm(Not(x), Not(y));
  }

  lemma {:induction false} XorCancel(x: int, y: int)
    ensures Xor(Xor(x, y), y) == x
    decreases Mag(x) + Mag(y)
  {
    if x == 0 || y == 0 || x == -1 || y == -1 {
      if y != 0 && y != -1 { XorSelf(y); }
    } else {
      XorCancel(x / 2, y / 2);
      XorStep(x, y);
      XorStep(Xor(x, y), y);
    }
  }

  lemma {:induction false} XorSelf(y: int)
    ensures Xor(y, y) == 0
    ensures Xor(-1 - y, y) == -1
    decreases Mag(y)
  {
    if y != 0 && y != -1 {
      XorSelf(y / 2);
      XorStep(y, y);
      XorStep(-1 - y, y);
      assert (-1 - y) / 2 == -1 - y / 2;
    }
  }

  lemma {:induction false} XorComm(x: int, y: int)
    ensures Xor(x, y) == Xor(y, x)
    decreases Mag(x) + Mag(y)
  {
    if x != 0 && y != 0 && x != -1 && y != -1 { XorComm(x / 2, y / 2); }
  }

  lemma {:induction false} XorZero(x: int, y: int)
    ensures Xor(x, y) == 0 <==> x == y
  {
    XorSelf(y);
    XorCancel(x, y);
  }

  lemma {:induction false} OrZero(x: int, y: int)
    ensures Or(x, y) == 0 <==> x == 0 && y == 0
    decreases Mag(x) + Mag(y)
  {
    AndOnes(-1 - x, -1 - y);
  }

  lemma {:induction false} AndOnes(x: int, y: int)
    ensures And(x, y) == -1 <==> x == -1 && y == -1
    decreases Mag(x) + Mag(y)
  {
    if x != 0 && y != 0 && x != -1 && y != -1 {
      AndOnes(x / 2, y / 2);
      AndStep(x, y);
    }
  }

  lemma {:induction false} XorRange(x: int, y: int, k: nat)
    requires 0 <= x < Pow2(k) && 0 <= y < Pow2(k)
    ensures 0 <= Xor(x, y) < Pow2(k)
  {
    if k > 0 {
      XorRange(x / 2, y / 2, k - 1);
      XorStep(x, y);
    }
  }

  lemma AndPair(a: int, i: int, b: int, j: int)
    requires 0 <= i < 2 && 0 <= j < 2
    ensures And(2 * a + i, 2 * b + j) == 2 * And(a, b) + (if i == 1 && j == 1 then 1 else 0)
  {
    AndStep(2 * a + i, 2 * b + j);
  }

  lemma Fields(h: int, l: int, n: int, m: int)
    requires m == 2 * n
    ensures h * m + l == 2 * (h * n + l / 2) + l % 2
  {
    MulAssoc(2, n, h);
  }

  // And works separately below and above any bit position.
  lemma {:induction false} AndFields(xh: int, xl: int, yh: int, yl: int, k: nat)
    requires 0 <= xl < Pow2(k) && 0 <= yl < Pow2(k)
    ensures And(xh * Pow2(k) + xl, yh * Pow2(k) + yl) == And(xl, yl) + Pow2(k) * And(xh, yh)
  {
    if k > 0 {
      var n := Pow2(k - 1);
      AndFields(xh, xl / 2, yh, yl / 2, k - 1);
      AndPair(xh * n + xl / 2, xl % 2, yh * n + yl / 2, yl % 2);
      AndPair(xl / 2, xl % 2, yl / 2, yl % 2);
      Fields(xh, xl, n, Pow2(k));
      Fields(yh, yl, n, Pow2(k));
      MulAssoc(2, n, And(xh, yh));
    }
  }

  lemma XorDoubled(x: int, y: int, a: int, i: int, b: int, j: int)
    requires x == 2 * a + i && y == 2 * b + j && 0 <= i < 2 && 0 <= j < 2
    ensures Xor(x, y) == 2 * Xor(a, b) + (if i != j then 1 else 0)
  {
    XorStep(x, y);
  }

  // So does xor.
  lemma {:induction false} XorFields(xh: int, xl: int, yh: int, yl: int, k: nat)
    requires 0 <= xl < Pow2(k) && 0 <= yl < Pow2(k)
    ensures Xor(xh * Pow2(k) + xl, yh * Pow2(k) + yl) == Xor(xl, yl) + Pow2(k) * Xor(xh, yh)
  {
    if k > 0 {
      var n := Pow2(k - 1);
      XorFields(xh, xl / 2, yh, yl / 2, k - 1);
      Fields(xh, xl, n, Pow2(k));
      Fields(yh, yl, n, Pow2(k));
      XorStepUp(xh * Pow2(k) + xl, yh * Pow2(k) + yl, xh * n + xl / 2, yh * n + yl / 2, xl, yl, n, Xor(xh, yh));
      MulAssoc(2, n, Xor(xh, yh));
    }
  }

  lemma XorStepUp(x: int, y: int, a: int, b: int, xl: int, yl: int, n: int, h: int)
    requires x == 2 * a + xl % 2 && y == 2 * b + yl % 2 && Xor(a, b) == Xor(xl / 2, yl / 2) + n * h
    ensures Xor(x, y) == Xor(xl, yl) + 2 * (n * h)
  {
    XorDoubled(x, y, a, xl % 2, b, yl % 2);
    XorDoubled(xl, yl, xl / 2, xl % 2, yl / 2, yl % 2);
  }

  lemma XorFieldsAt(xh: int, xl: int, yh: int, yl: int, k: nat, p: int)
    requires p == Pow2(k) && 0 <= xl < p && 0 <= yl < p
    ensures Xor(xh * p + xl, yh * p + yl) == Xor(xl, yl) + p * Xor(xh, yh)
  {
    XorFields(xh, xl, yh, yl, k);
  }

  lemma AndFieldsAt(xh: int, xl: int, yh: int, yl: int, k: nat, p: int)
    requires p == Pow2(k) && 0 <= xl < p && 0 <= yl < p
    ensures And(xh * p + xl, yh * p + yl) == And(xl, yl) + p * And(xh, yh)
  {
    AndFields(xh, xl, yh, yl, k);
  }

  lemma AndHighAt(x: int, h: int, k: nat, p: int)
    requires p == Pow2(k)
    ensures And(x, h * p) == And(x / p, h) * p
  {
    AndHigh(x, h, k);
  }

  lemma AndMaskAt(x: int, k: nat, p: int)
    requires p == Pow2(k)
    ensures And(x, p - 1) == x % p
  {
    AndMask(x, k);
  }

  // Bit r does not depend on anything above it.
  lemma {:induction false} BitBelow(x: int, m: int, r: nat)
    ensures ((x + Pow2(r + 1) * m) / Pow2(r)) % 2 == (x / Pow2(r)) % 2
    decreases r
  {
    if r > 0 {
      var n := Pow2(r - 1);
      MulAssoc(2, Pow2(r), m);
      BitBelow(x / 2, m, r - 1);
      DivDiv(x, 2, n);
      DivDiv(x + 2 * (Pow2(r) * m), 2, n);
    } else {
      assert Pow2(1) == 2;
    }
  }

  lemma AndHigh(x: int, h: int, k: nat)
    ensures And(x, h * Pow2(k)) == And(x / Pow2(k), h) * Pow2(k)
  {
    var p := Pow2(k);
    assert x == (x / p) * p + x % p;
    AndFields(x / p, x % p, h, 0, k);
  }

  lemma {:induction false} AndMask(x: int, k: nat)
    ensures And(x, Pow2(k) - 1) == x % Pow2(k)
    decreases k
  {
    if k > 0 {
      var n := Pow2(k - 1);
      AndMask(x / 2, k - 1);
      AndStep(x, 2 * n - 1);
      assert (2 * n - 1) / 2 == n - 1;
      DivDiv(x, 2, n);
    }
  }

  lemma {:induction false} AndRange(x: int, y: int)
    requires 0 <= y
    ensures 0 <= And(x, y) <= y
    decreases Mag(x) + Mag(y)
  {
    if x != 0 && y != 0 && x != -1 && y != -1 {
      AndRange(x / 2, y / 2);
    }
  }

  // Or of fields that do not overlap is their sum.
  lemma {:induction false} OrFields(lo: int, hi: int, k: nat)
    requires 0 <= lo < Pow2(k)
    ensures Or(lo, hi * Pow2(k)) == lo + hi * Pow2(k)
  {
    if k == 0 {
      assert lo == 0 && hi * 1 == hi;
    } else {
      var n := Pow2(k - 1);
      assert hi * Pow2(k) == 2 * (hi * n);
      OrFields(lo / 2, hi, k - 1);
      AndStep(Not(lo), Not(2 * (hi * n)));
      assert Not(lo) / 2 == Not(lo / 2);
      assert Not(2 * (hi * n)) / 2 == Not(hi * n);
      assert Not(2 * (hi * n)) % 2 == 1;
    }
  }
}

// Bytes combined bit by bit, and byte strings as numbers.
module ByteStrings {
  import opened MachineInts
  import opened Radix
  import Bits

  function XorByte(x: byte, y: byte): byte
  {
    XorIsByte(x, y);
    Bits.Xor(x, y)
  }

  lemma XorIsByte(x: byte, y: byte)
    ensures 0 <= Bits.Xor(x, y) < 0x100
  {
    assert Bits.Pow2(8) == 0x100;
    Bits.XorRange(x, y, 8);
  }

  lemma {:induction false} BytePow(j: nat)
    ensures Pow(0x100, j) == Bits.Pow2(8 * j)
  {
    if j > 0 {
      BytePow(j - 1);
      Bits.Pow2Add(8, 8 * j - 8);
      assert Bits.Pow2(8) == 0x100;
    }
  }

  lemma Val2(s: seq<int>)
    requires |s| == 2
    ensures Val(0x100, s) == s[0] + 0x100 * s[1]
  {
    var t := s[1..];
    assert t[1..] == [] && Val(0x100, t) == t[0];
  }

  lemma Val3(s: seq<int>)
    requires |s| == 3
    ensures Val(0x100, s) == s[0] + 0x100 * s[1] + 0x1_0000 * s[2]
  {
    Val2(s[1..]);
    assert s[1..][0] == s[1] && s[1..][1] == s[2];
  }

  lemma Val4(s: seq<int>)
    requires |s| == 4
    ensures Val(0x100, s) == s[0] + 0x100 * s[1] + 0x1_0000 * s[2] + 0x100_0000 * s[3]
  {
    Val3(s[1..]);
    assert s[1..][0] == s[1] && s[1..][1] == s[2] && s[1..][2] == s[3];
  }
}
