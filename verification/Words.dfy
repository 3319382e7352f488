// Unsigned machine words as natural numbers. A word of `n` bits is a natural number below
// `Pow2(n)`. The C operators `<<`, `>>`, `&`, `|` and `~` are spelt out on the binary digits, and a
// lemma for each describes the bits of its result. All recursions halve, double or count, so every
// proof stays in linear arithmetic.
module Words {

  const TWO64: nat := 0x1_0000_0000_0000_0000

  function Pow2(n: nat): (p: nat)
    ensures p > 0
  {
    if n == 0 then 1 else 2 * Pow2(n - 1)
  }

  // Bit `i` of `m`.
  predicate Bit(m: nat, i: nat)
  {
    if i == 0 then m % 2 == 1 else Bit(m / 2, i - 1)
  }

  function And(a: nat, b: nat): nat
  {
    if a == 0 || b == 0 then 0
    else 2 * And(a / 2, b / 2) + (if a % 2 == 1 && b % 2 == 1 then 1 else 0)
  }

  function Or(a: nat, b: nat): nat
    decreases a + b
  {
    if a == 0 && b == 0 then 0
    else 2 * Or(a / 2, b / 2) + (if a % 2 == 1 || b % 2 == 1 then 1 else 0)
  }

  // The `n` low bits set: `(1 << n) - 1`.
  function Ones(n: nat): nat
  {
    Pow2(n) - 1
  }

  // `~a` on an `n`-bit word.
  function Not(a: nat, n: nat): nat
    requires a < Pow2(n)
  {
    Ones(n) - a
  }

  // `v` shifted left by `c` places, with as many digits as it takes.
  function Wide(v: nat, c: nat): nat
  {
    if c == 0 then v else 2 * Wide(v, c - 1)
  }

  // The `n` low digits of `m`.
  function Low(m: nat, n: nat): nat
  {
    if n == 0 then 0 else 2 * Low(m / 2, n - 1) + m % 2
  }

  // `v << c` on an `n`-bit word: what is shifted out at the top is lost.
  function Shl(v: nat, c: nat, n: nat): nat
  {
    Low(Wide(v, c), n)
  }

  // `v >> c`.
  function Shr(v: nat, c: nat): nat
  {
    if c == 0 then v else Shr(v / 2, c - 1)
  }

  // ---- Powers of two ----

  lemma {:induction false} Pow2Mono(a: nat, b: nat)
    requires a <= b
    ensures Pow2(a) <= Pow2(b)
    decreases b
  {
    if a < b {
      Pow2Mono(a, b - 1);
    }
  }

  lemma Pow2Values()
    ensures Pow2(6) == 64 && Pow2(12) == 4096 && Pow2(18) == 262144 && Pow2(24) == 16777216
    ensures Pow2(32) == 0x1_0000_0000 && Pow2(64) == TWO64
  {
    assert Pow2(6) == 64;
    Pow2Add6(6);
    Pow2Add6(12);
    Pow2Add6(18);
    Pow2Add6(24);
    Pow2Add6(30);
    Pow2Add6(36);
    Pow2Add6(42);
    Pow2Add6(48);
    Pow2Add6(54);
    assert Pow2(60) == 0x1000_0000_0000_0000;
    assert Pow2(64) == 16 * Pow2(60);
    assert Pow2(32) == 4 * Pow2(30);
  }

  lemma Pow2Add6(n: nat)
    ensures Pow2(n + 6) == 64 * Pow2(n)
  {
    assert Pow2(n + 6) == 2 * Pow2(n + 5) == 4 * Pow2(n + 4) == 8 * Pow2(n + 3);
    assert Pow2(n + 3) == 2 * Pow2(n + 2) == 4 * Pow2(n + 1);
  }

  // ---- The bits of each result ----

  lemma {:induction false} ZeroBit(i: nat)
    ensures !Bit(0, i)
  {
    if i != 0 {
      ZeroBit(i - 1);
    }
  }

  lemma {:induction false} AndBit(a: nat, b: nat, i: nat)
    ensures Bit(And(a, b), i) <==> Bit(a, i) && Bit(b, i)
    decreases i
  {
    if a == 0 || b == 0 {
      ZeroBit(i);
    } else if i != 0 {
      AndBit(a / 2, b / 2, i - 1);
    }
  }

  lemma {:induction false} OrBit(a: nat, b: nat, i: nat)
    ensures Bit(Or(a, b), i) <==> Bit(a, i) || Bit(b, i)
    decreases i
  {
    if a == 0 && b == 0 {
      ZeroBit(i);
    } else if i != 0 {
      OrBit(a / 2, b / 2, i - 1);
    }
  }

  lemma {:induction false} OnesBit(n: nat, i: nat)
    ensures Bit(Ones(n), i) <==> i < n
  {
    if n == 0 {
      ZeroBit(i);
    } else if i != 0 {
      assert Ones(n) / 2 == Ones(n - 1);
      OnesBit(n - 1, i - 1);
    }
  }

  lemma {:induction false} NotBit(a: nat, n: nat, i: nat)
    requires a < Pow2(n)
    ensures Bit(Not(a, n), i) <==> i < n && !Bit(a, i)
    decreases n
  {
    if n == 0 {
      ZeroBit(i);
    } else {
      assert Not(a, n) / 2 == Not(a / 2, n - 1);
      if i != 0 {
        NotBit(a / 2, n - 1, i - 1);
      }
    }
  }

  lemma {:induction false} WideBit(v: nat, c: nat, i: nat)
    ensures Bit(Wide(v, c), i) <==> c <= i && Bit(v, i - c)
    decreases c
  {
    if c != 0 {
      if i != 0 {
        WideBit(v, c - 1, i - 1);
      }
    }
  }

  lemma {:induction false} LowBit(m: nat, n: nat, i: nat)
    ensures Bit(Low(m, n), i) <==> i < n && Bit(m, i)
    decreases n
  {
    if n == 0 {
      ZeroBit(i);
    } else if i != 0 {
      LowBit(m / 2, n - 1, i - 1);
    }
  }

  lemma ShlBit(v: nat, c: nat, n: nat, i: nat)
    ensures Bit(Shl(v, c, n), i) <==> c <= i < n && Bit(v, i - c)
  {
    LowBit(Wide(v, c), n, i);
    WideBit(v, c, i);
  }

  lemma {:induction false} ShrBit(v: nat, c: nat, i: nat)
    ensures Bit(Shr(v, c), i) <==> Bit(v, i + c)
    decreases c
  {
    if c != 0 {
      ShrBit(v / 2, c - 1, i);
    }
  }

  // ---- Sizes ----

  lemma {:induction false} AndBound(a: nat, b: nat)
    ensures And(a, b) <= a && And(a, b) <= b
  {
    if a != 0 && b != 0 {
      AndBound(a / 2, b / 2);
    }
  }

  lemma {:induction false} OrBound(a: nat, b: nat, n: nat)
    requires a < Pow2(n) && b < Pow2(n)
    ensures Or(a, b) < Pow2(n)
  {
    if n != 0 && (a != 0 || b != 0) {
      OrBound(a / 2, b / 2, n - 1);
    }
  }

  lemma {:induction false} LowBound(m: nat, n: nat)
    ensures Low(m, n) < Pow2(n)
  {
    if n != 0 {
      LowBound(m / 2, n - 1);
    }
  }

  lemma {:induction false} ShrBound(v: nat, c: nat, n: nat)
    requires v < Pow2(n)
    ensures Shr(v, c) < Pow2(n)
    decreases c
  {
    if c != 0 {
      ShrBound(v / 2, c - 1, n);
    }
  }

  // A word that fits loses nothing.
  lemma {:induction false} LowFits(m: nat, n: nat)
    requires m < Pow2(n)
    ensures Low(m, n) == m
  {
    if n != 0 {
      LowFits(m / 2, n - 1);
    }
  }

  lemma {:induction false} WideOne(c: nat)
    ensures Wide(1, c) == Pow2(c)
  {
    if c != 0 {
      WideOne(c - 1);
    }
  }

  lemma ShlOne(c: nat, n: nat)
    requires c < n
    ensures Shl(1, c, n) == Pow2(c)
  {
    WideOne(c);
    Pow2Mono(c, n - 1);
    LowFits(Pow2(c), n);
  }

  // `x & ((1 << n) - 1)` keeps the `n` low digits.
  lemma {:induction false} AndOnes(x: nat, n: nat)
    ensures And(x, Ones(n)) == Low(x, n)
    decreases n
  {
    if n != 0 {
      assert Ones(n) / 2 == Ones(n - 1);
      AndOnes(x / 2, n - 1);
      if x == 0 {
        AndOnes(0, n - 1);
      }
    }
  }

  // A nonzero word has a set bit.
  lemma {:induction false} SomeBit(m: nat, n: nat) returns (i: nat)
    requires 0 < m < Pow2(n)
    ensures i < n && Bit(m, i)
  {
    if m % 2 == 1 {
      i := 0;
    } else {
      var j := SomeBit(m / 2, n - 1);
      i := j + 1;
    }
  }

  lemma {:induction false} AndSingle(v: nat, b: nat)
    ensures And(v, Pow2(b)) == if Bit(v, b) then Pow2(b) else 0
    decreases b
  {
    if v == 0 {
      ZeroBit(b);
    } else if b != 0 {
      AndSingle(v / 2, b - 1);
    }
  }

  // Words that agree on all their bits are equal.
  lemma {:induction false} SameBits(a: nat, b: nat, n: nat)
    requires a < Pow2(n) && b < Pow2(n)
    requires forall i: nat :: i < n ==> (Bit(a, i) <==> Bit(b, i))
    ensures a == b
  {
    if n != 0 {
      assert Bit(a, 0) <==> Bit(b, 0);
      forall i: nat | i < n - 1
        ensures Bit(a / 2, i) <==> Bit(b / 2, i)
      {
        assert Bit(a, i + 1) <==> Bit(b, i + 1);
      }
      SameBits(a / 2, b / 2, n - 1);
    }
  }

  // The high `k` bits of an `n`-bit word.
  lemma {:induction false} ShrHigh(v: nat, n: nat, k: nat)
    requires v < Pow2(n) && k <= n
    ensures Shr(v, n - k) < Pow2(k)
    decreases n - k
  {
    if k < n {
      ShrHigh(v / 2, n - 1, k);
    }
  }

  // `i & mask` for a table of `2^n` slots, less than one turn beyond the end.
  lemma {:induction false} MaskTurn(i: nat, n: nat)
    requires i < 2 * Pow2(n)
    ensures And(i, Ones(n)) == if i < Pow2(n) then i else i - Pow2(n)
  {
    AndOnes(i, n);
    if i < Pow2(n) {
      LowFits(i, n);
    } else {
      LowFits(i - Pow2(n), n);
      LowDrop(i - Pow2(n), n);
    }
  }

  lemma {:induction false} LowDrop(x: nat, n: nat)
    ensures Low(x + Pow2(n), n) == Low(x, n)
  {
    if n > 0 {
      assert (x + Pow2(n)) / 2 == x / 2 + Pow2(n - 1);
      LowDrop(x / 2, n - 1);
    }
  }
}
