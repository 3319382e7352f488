// Clocks and granules: what a timer wheel sees of the clock from level l, whose granule is 8^l ticks.
// The kernel wheel and the ttl clamp go up a level at a time; the exact wheel, with granules of
// 64^l, two at a time. Every recursion divides or multiplies by 8, so the proofs stay linear.
module Granules {
  // m granules of level l: m << 3l
  function Up(m: nat, l: nat): nat { if l == 0 then m else 8 * Up(m, l - 1) }

  function Gran(l: nat): nat { Up(1, l) }

  // c >> 3l
  function Down(c: nat, l: nat): nat { if l == 0 then c else Down(c / 8, l - 1) }

  // c is a multiple of the granule: c & (Gran(l) - 1) is 0
  predicate Aligned(c: nat, l: nat) { l == 0 || (c % 8 == 0 && Aligned(c / 8, l - 1)) }

  // c & LVL_MASK: the slot, of 64 in every level.
  function Slot(c: nat): (i: nat)
    ensures i < 64
  {
    c % 64
  }

  lemma SameSlot(a: nat, b: nat)
    ensures a <= b < a + 64 && Slot(a) == Slot(b) ==> a == b
    ensures Slot(a + 64) == Slot(a)
  {
  }

  lemma {:induction false} UpMono(m: nat, n: nat, l: nat)
    ensures m <= n <==> Up(m, l) <= Up(n, l)
  {
    if l > 0 { UpMono(m, n, l - 1); }
  }

  lemma {:induction false} UpSum(m: nat, n: nat, l: nat)
    ensures Up(m + n, l) == Up(m, l) + Up(n, l)
  {
    if l > 0 { UpSum(m, n, l - 1); }
  }

  lemma {:induction false} UpUp(m: nat, k: nat, l: nat)
    ensures Up(Up(m, k), l) == Up(m, k + l)
  {
    if l > 0 { UpUp(m, k, l - 1); }
  }

  lemma {:induction false} UpScale(q: nat, k: nat)
    ensures Up(64 * q, k) == 64 * Up(q, k)
  {
    if k > 0 { UpScale(q, k - 1); }
  }

  lemma UpRound(q: nat, k: nat)
    ensures Up(64 * q, k) % 64 == 0
  {
    UpScale(q, k);
    hide Up;
  }

  lemma {:induction false} UpEights(m: nat, l: nat)
    ensures Up(8 * m, l) == Up(m, l + 1)
  {
    if l > 0 { UpEights(m, l - 1); }
  }

  lemma {:induction false} UpMonoLevel(m: nat, k: nat, l: nat)
    requires k <= l
    ensures Up(m, k) <= Up(m, l)
  {
    if k < l { UpMonoLevel(m, k, l - 1); }
  }

  lemma {:induction false} UpPositive(l: nat)
    ensures Gran(l) > 0
  {
    if l > 0 { UpPositive(l - 1); }
  }

  lemma UpEight(m: nat)
    ensures Up(m, 8) == 16777216 * m
  {
    assert Up(m, 1) == 8 * m;
    assert Up(m, 3) == 512 * m;
    assert Up(m, 5) == 32768 * m;
    assert Up(m, 7) == 2097152 * m;
  }

  lemma UpTimes63(l: nat)
    ensures Up(63, l) == 63 * Gran(l)
  {
  }

  lemma {:induction false} DownZero(l: nat)
    ensures Down(0, l) == 0
  {
    if l > 0 { DownZero(l - 1); }
  }

  lemma {:induction false} DownNext(e: nat, l: nat)
    ensures Down(e + Gran(l), l) == Down(e, l) + 1
  {
    if l > 0 { DownNext(e / 8, l - 1); }
  }

  lemma {:induction false} DownUp(m: nat, r: nat, l: nat)
    ensures Down(Up(m, l) + r, l) == m + Down(r, l)
  {
    if l > 0 {
      DownUp(m, r / 8, l - 1);
      assert (8 * Up(m, l - 1) + r) / 8 == Up(m, l - 1) + r / 8;
    }
  }

  lemma {:induction false} DownIs(c: nat, m: nat, l: nat)
    ensures Up(m, l) <= c <==> m <= Down(c, l)
  {
    if l > 0 {
      DownIs(c / 8, m, l - 1);
      assert 8 * Up(m, l - 1) <= c <==> Up(m, l - 1) <= c / 8;
    }
  }

  lemma DownMono(a: nat, b: nat, l: nat)
    requires a <= b
    ensures Down(a, l) <= Down(b, l)
  {
    DownIs(a, Down(a, l), l);
    DownIs(b, Down(a, l), l);
  }

  lemma DownPlus(c: nat, m: nat, l: nat)
    ensures Down(c + Up(m, l), l) == Down(c, l) + m
  {
    DownUp(m, c, l);
  }

  // The granule changes exactly when the clock reaches a multiple of it.
  lemma {:induction false} DownTick(c: nat, l: nat)
    ensures Down(c + 1, l) == if Aligned(c + 1, l) then Down(c, l) + 1 else Down(c, l)
  {
    if l > 0 {
      if (c + 1) % 8 == 0 {
        assert (c + 1) / 8 == c / 8 + 1;
        DownTick(c / 8, l - 1);
      } else {
        assert (c + 1) / 8 == c / 8;
      }
    }
  }

  lemma {:induction false} AlignedIs(c: nat, l: nat)
    ensures Aligned(c, l) <==> c == Up(Down(c, l), l)
  {
    if l > 0 {
      AlignedIs(c / 8, l - 1);
      DownIs(c / 8, Down(c / 8, l - 1), l - 1);
    }
  }

  lemma {:induction false} AlignedBelow(c: nat, k: nat, l: nat)
    requires k <= l && Aligned(c, l)
    ensures Aligned(c, k)
  {
    if k > 0 { AlignedBelow(c / 8, k - 1, l - 1); }
  }

  lemma AlignedUp(m: nat, l: nat)
    ensures Aligned(Up(m, l), l) && Down(Up(m, l), l) == m
  {
    DownUp(m, 0, l);
    DownZero(l);
    AlignedIs(Up(m, l), l);
  }
}
