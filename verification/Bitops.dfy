// Counting leading and trailing zeros: article/src/c/wheel/timeout-bitops.c. The portable routines
// test whether a half of the word is empty, skip that half, and go on with a half as wide. They are
// proved against the bit-by-bit loops of the same file through one specification: the position of
// the highest, or lowest, set bit.
module Bitops {
  import opened Words

  // `b` is the highest set bit of `x`.
  ghost predicate IsTopBit(x: nat, b: nat)
  {
    Pow2(b) <= x < Pow2(b + 1)
  }

  // `b` is the lowest set bit of `x`.
  ghost predicate IsLowBit(x: nat, b: nat)
  {
    Bit(x, b) && forall i: nat :: i < b ==> !Bit(x, i)
  }

  // ---- Specification ----

  // Number of leading zeros of an `n`-bit word; `n` for zero.
  function Clz(x: nat, n: nat): nat
    requires x < Pow2(n)
  {
    if n == 0 || x >= Pow2(n - 1) then 0 else 1 + Clz(x, n - 1)
  }

  // Number of trailing zeros of a nonzero word.
  function Ctz(x: nat): nat
    requires x > 0
  {
    if x % 2 == 1 then 0 else 1 + Ctz(x / 2)
  }

  lemma {:induction false} ClzIsTopBit(x: nat, n: nat)
    requires 0 < x < Pow2(n)
    ensures Clz(x, n) < n
    ensures IsTopBit(x, n - 1 - Clz(x, n))
  {
    if x < Pow2(n - 1) {
      ClzIsTopBit(x, n - 1);
    }
  }

  lemma {:induction false} CtzIsLowBit(x: nat)
    requires x > 0
    ensures IsLowBit(x, Ctz(x))
  {
    if x % 2 == 0 {
      CtzIsLowBit(x / 2);
      forall i: nat | i < 1 + Ctz(x / 2)
        ensures !Bit(x, i)
      {
        if i > 0 {
          assert !Bit(x / 2, i - 1);
        }
      }
    }
  }

  // A set bit is never below the count of trailing zeros.
  lemma CtzAtMost(x: nat, i: nat)
    requires x > 0 && Bit(x, i)
    ensures Ctz(x) <= i
  {
    CtzIsLowBit(x);
  }

  // ---- The halving steps ----

  // Shifting `k` empty top bits out takes `k` off the count and empties no more.
  lemma {:induction false} ClzSkip(x: nat, n: nat, k: nat)
    requires k < n && 0 < x < Pow2(n - k)
    ensures x < Pow2(n) && Wide(x, k) < Pow2(n)
    ensures Clz(x, n) == k + Clz(Wide(x, k), n)
    ensures forall m: nat :: m + k <= n && Pow2(m) <= x ==> Pow2(m + k) <= Wide(x, k)
  {
    Pow2Mono(n - k, n);
    if k > 0 {
      assert Pow2(n - k + 1) == 2 * Pow2(n - k);
      Pow2Mono(n - k, n - 1);
      ClzSkip(x, n, k - 1);
      var y := Wide(x, k - 1);
      WideBelow(x, n - k, k - 1);
      assert n - k + (k - 1) == n - 1;
      assert Pow2(0) <= x && Pow2(0 + (k - 1)) <= y;
      ClzDouble(y, n);
      forall m: nat | m + k <= n && Pow2(m) <= x
        ensures Pow2(m + k) <= Wide(x, k)
      {
        assert Pow2(m + (k - 1)) <= y;
      }
    }
  }

  lemma {:induction false} WideBelow(x: nat, n: nat, k: nat)
    requires x < Pow2(n)
    ensures Wide(x, k) < Pow2(n + k)
  {
    if k > 0 {
      WideBelow(x, n, k - 1);
    }
  }

  lemma {:induction false} ClzDouble(y: nat, n: nat)
    requires n > 0 && 0 < y < Pow2(n - 1)
    ensures 2 * y < Pow2(n) && Clz(y, n) == 1 + Clz(2 * y, n)
  {
    if n > 1 && y < Pow2(n - 2) {
      ClzDouble(y, n - 1);
    }
  }

  // If the low `k` bits are empty, they are `k` trailing zeros.
  lemma {:induction false} CtzSkip(x: nat, k: nat)
    requires x > 0 && Low(x, k) == 0
    ensures Shr(x, k) > 0
    ensures Ctz(x) == k + Ctz(Shr(x, k))
  {
    if k > 0 {
      CtzSkip(x / 2, k - 1);
    }
  }

  // The low `m + k` digits are the low `m` digits after a shift by `k`, above the low `k`.
  lemma {:induction false} LowSplit(x: nat, m: nat, k: nat)
    requires Low(x, k) == 0 && Low(Shr(x, k), m) == 0
    ensures Low(x, m + k) == 0
  {
    if k > 0 {
      LowSplit(x / 2, m, k - 1);
    }
  }

  // One step of the leading-zero count on an `n`-bit word.
  method ClzStep(x: nat, rv: nat, n: nat, bits: nat) returns (x': nat, rv': nat)
    requires 1 <= bits && 2 * bits <= n
    requires Pow2(n - 2 * bits) <= x < Pow2(n)
    ensures Pow2(n - bits) <= x' < Pow2(n)
    ensures rv' + Clz(x', n) == rv + Clz(x, n)
  {
    x', rv' := x, rv;
    ShlOne(n - bits, n);
    if x < Shl(1, n - bits, n) {
      ClzSkip(x, n, bits);
      LowFits(Wide(x, bits), n);
      assert Pow2(n - 2 * bits + bits) <= Wide(x, bits);
      rv' := rv' + bits;
      x' := Shl(x', bits, n);
    }
  }

  // One step of the trailing-zero count.
  method CtzStep(x: nat, rv: nat, n: nat, bits: nat) returns (x': nat, rv': nat)
    requires bits < n
    requires x > 0 && Low(x, 2 * bits) != 0
    ensures x' > 0 && Low(x', bits) != 0
    ensures rv' + Ctz(x') == rv + Ctz(x)
  {
    x', rv' := x, rv;
    AndOnes(x, bits);
    ShlOne(bits, n);
    if And(x, Shl(1, bits, n) - 1) == 0 {
      CtzSkip(x, bits);
      if Low(Shr(x, bits), bits) == 0 {
        LowSplit(x, bits, bits);
      }
      rv' := rv' + bits;
      x' := Shr(x', bits);
    }
  }

  // ---- The portable routines ----

  method Clz64(x: nat) returns (rv: nat)
    requires 0 < x < Pow2(64)
    ensures rv == Clz(x, 64)
  {
    var x := x;
    x, rv := ClzStep(x, 0, 64, 32);
    x, rv := ClzStep(x, rv, 64, 16);
    x, rv := ClzStep(x, rv, 64, 8);
    x, rv := ClzStep(x, rv, 64, 4);
    x, rv := ClzStep(x, rv, 64, 2);
    x, rv := ClzStep(x, rv, 64, 1);
  }

  method Clz32(x: nat) returns (rv: nat)
    requires 0 < x < Pow2(32)
    ensures rv == Clz(x, 32)
  {
    var x := x;
    x, rv := ClzStep(x, 0, 32, 16);
    x, rv := ClzStep(x, rv, 32, 8);
    x, rv := ClzStep(x, rv, 32, 4);
    x, rv := ClzStep(x, rv, 32, 2);
    x, rv := ClzStep(x, rv, 32, 1);
  }

  method Ctz64(x: nat) returns (rv: nat)
    requires 0 < x < Pow2(64)
    ensures rv == Ctz(x)
  {
    var x := x;
    LowFits(x, 64);
    x, rv := CtzStep(x, 0, 64, 32);
    x, rv := CtzStep(x, rv, 64, 16);
    x, rv := CtzStep(x, rv, 64, 8);
    x, rv := CtzStep(x, rv, 64, 4);
    x, rv := CtzStep(x, rv, 64, 2);
    x, rv := CtzStep(x, rv, 64, 1);
  }

  method Ctz32(x: nat) returns (rv: nat)
    requires 0 < x < Pow2(32)
    ensures rv == Ctz(x)
  {
    var x := x;
    LowFits(x, 32);
    x, rv := CtzStep(x, 0, 32, 16);
    x, rv := CtzStep(x, rv, 32, 8);
    x, rv := CtzStep(x, rv, 32, 4);
    x, rv := CtzStep(x, rv, 32, 2);
    x, rv := CtzStep(x, rv, 32, 1);
  }

  // ---- The bit-by-bit loops ----

  method NaiveClz(bits: nat, v: nat) returns (r: nat)
    requires 1 <= bits <= 64 && v < Pow2(bits)
    ensures r == Clz(v, bits)
  {
    r := 0;
    ShlOne(bits - 1, 64);
    var bit := Shl(1, bits - 1, 64);
    while bit != 0 && And(v, bit) == 0
      invariant r <= bits
      invariant bit == if r == bits then 0 else Pow2(bits - 1 - r)
      invariant v < Pow2(bits - r)
      invariant Clz(v, bits) == r + Clz(v, bits - r)
      decreases bits - r
    {
      AndSingle(v, bits - 1 - r);
      TopBit(v, bits - 1 - r);
      r := r + 1;
      HalfPow(bits - r);
      bit := Shr(bit, 1);
    }
    if bit != 0 {
      AndSingle(v, bits - 1 - r);
      TopBit(v, bits - 1 - r);
    }
  }

  method NaiveCtz(bits: nat, v: nat) returns (r: nat)
    requires 1 <= bits <= 64 && v < Pow2(bits)
    ensures r == if v == 0 then bits else Ctz(v)
  {
    r := 0;
    var bit := 1;
    while bit != 0 && And(v, bit) == 0
      invariant r < bits
      invariant bit == Pow2(r)
      invariant forall i: nat :: i < r ==> !Bit(v, i)
      decreases bits - r
    {
      AndSingle(v, r);
      r := r + 1;
      if r < 64 {
        Pow2Mono(r, 63);
        assert Wide(bit, 1) == 2 * Wide(bit, 0) == Pow2(r);
        LowFits(Pow2(r), 64);
      }
      bit := Shl(bit, 1, 64);
      if r == bits {
        break;
      }
    }
    if v != 0 {
      CtzIsLowBit(v);
      if r < bits {
        AndSingle(v, r);
      } else {
        var i := SomeBit(v, bits);
        assert false;
      }
    }
  }

  lemma HalfPow(n: nat)
    ensures Shr(Pow2(n), 1) == if n == 0 then 0 else Pow2(n - 1)
  {
  }

  lemma {:induction false} TopBit(v: nat, b: nat)
    requires v < Pow2(b + 1)
    ensures Bit(v, b) <==> v >= Pow2(b)
  {
    if b != 0 {
      TopBit(v / 2, b - 1);
    }
  }

  // ---- The comparison of the self-test, for every word ----

  // The halving routines agree with the loops on every nonzero word.
  method Check(vv: nat) returns (ok: bool)
    requires vv < Pow2(64)
    ensures ok
  {
    LowBound(vv, 32);
    var v32 := Low(vv, 32);
    if vv == 0 {
      return true;
    }
    var a := Ctz64(vv);
    var b := NaiveCtz(64, vv);
    if a != b {
      return false;
    }
    a := Clz64(vv);
    b := NaiveClz(64, vv);
    if a != b {
      return false;
    }
    if v32 == 0 {
      return true;
    }
    a := Ctz32(v32);
    b := NaiveCtz(32, v32);
    if a != b {
      return false;
    }
    a := Clz32(v32);
    b := NaiveClz(32, v32);
    if a != b {
      return false;
    }
    return true;
  }
}
