// The index and mask arithmetic of the tickless wheel: article/src/c/wheel/timeout.c, with the
// default four wheels of 64 slots. Times are 64-bit words. Wheel `w` counts in units of `Gran(w)`
// ticks, and slot numbers are unit numbers modulo 64. The two lemmas everything else rests on are
// `WheelOfRemainder`, which says which wheel a remaining time lands on, and `MaskCovers`, which
// says that the rotated masks of an update contain every unit between the old and the new time.
module WheelBits {
  import opened Words
  import opened Bitops

  const WHEEL_BIT := 6
  const WHEEL_NUM := 4
  const WHEEL_LEN := 64
  const WHEEL_MAX := 63
  const WHEEL_MASK := 63
  const TIMEOUT_MAX: nat := 0xFF_FFFF

  // Ticks per slot of wheel `w`: `64^w`.
  function Gran(w: nat): (g: nat)
    requires w <= WHEEL_NUM
    ensures g > 0
  {
    if w == 0 then 1 else if w == 1 then 64 else if w == 2 then 4096 else if w == 3 then 262144 else 16777216
  }

  // `t / Gran(w)`: the number of the unit of wheel `w` that time `t` lies in.
  function Unit(t: nat, w: nat): nat
    requires w < WHEEL_NUM
  {
    if w == 0 then t else if w == 1 then t / 64 else if w == 2 then t / 4096 else t / 262144
  }

  function RotL(v: nat, c: nat): nat
    requires c < 64
  {
    if c == 0 then v else Or(Shl(v, c, 64), Shr(v, 64 - c))
  }

  function RotR(v: nat, c: nat): nat
    requires c < 64
  {
    if c == 0 then v else Or(Shr(v, c), Shl(v, 64 - c, 64))
  }

  // `fls(min(rem, TIMEOUT_MAX)) - 1`, in groups of six bits.
  function TimeoutWheel(rem: nat): nat
    requires 0 < rem < TWO64
  {
    Pow2Values();
    var m := if rem < TIMEOUT_MAX then rem else TIMEOUT_MAX;
    ClzIsTopBit(m, 64);
    (64 - Clz(m, 64) - 1) / WHEEL_BIT
  }

  function TimeoutSlot(wheel: nat, expires: nat): nat
    requires wheel < WHEEL_NUM && expires < TWO64
  {
    And((Shr(expires, wheel * WHEEL_BIT) + TWO64 - (if wheel == 0 then 0 else 1)) % TWO64, WHEEL_MASK)
  }

  // The slot of wheel `w` that time `t` falls in.
  function SlotAt(t: nat, w: nat): nat
    requires w < WHEEL_NUM
  {
    And(Shr(t, w * WHEEL_BIT), WHEEL_MASK)
  }

  // `(1 << el) - 1`.
  function Fill(el: nat): (f: nat)
    requires el < 64
    ensures f == Ones(el)
  {
    ShlOne(el, 64);
    Shl(1, el, 64) - 1
  }

  // The two rotated fills and the new-slot bit.
  function Fills(el: nat, o: nat, n: nat): nat
    requires el < 64 && o < 64 && n < 64
  {
    Or(Or(RotL(Fill(el), o), RotR(RotL(Fill(el), n), el)), Shl(1, n, 64))
  }

  // The slots of wheel `w` an update from `cur` to `now` looks at, for a (possibly raised)
  // `elapsed`.
  function ExpiringMask(w: nat, elapsed: nat, cur: nat, now: nat): nat
    requires w < WHEEL_NUM
  {
    if Shr(elapsed, w * WHEEL_BIT) > WHEEL_MAX then Ones(64)
    else
      var el := SlotAt(elapsed, w);
      SlotRange(elapsed, w); SlotRange(cur, w); SlotRange(now, w);
      Fills(el, SlotAt(cur, w), SlotAt(now, w))
  }

  // `m | (1 << s)`.
  function WithBit(m: nat, s: nat): nat
  {
    Or(m, Shl(1, s, 64))
  }

  // `m & ~(1 << s)`.
  function WithoutBit(m: nat, s: nat): nat
    requires s < 64
  {
    SingleBit(s, s);
    And(m, Not(Shl(1, s, 64), 64))
  }

  // ---- Shifts and masks as division and remainder ----

  lemma {:induction false} ShrAdd(x: nat, a: nat, b: nat)
    ensures Shr(x, a + b) == Shr(Shr(x, a), b)
    decreases a
  {
    if a > 0 {
      ShrAdd(x / 2, a - 1, b);
    }
  }

  lemma Shr6(x: nat)
    ensures Shr(x, 6) == x / 64
  {
    ShrAdd(x, 3, 3);
    Shr3(x);
    Shr3(x / 8);
  }

  lemma ShrGran(x: nat, w: nat)
    requires w < WHEEL_NUM
    ensures Shr(x, w * WHEEL_BIT) == Unit(x, w)
  {
    Shr6(x);
    Shr6(x / 64);
    Shr6(x / 4096);
    ShrAdd(x, 6, 6);
    ShrAdd(x, 12, 6);
  }

  lemma {:induction false} LowSplitAt(x: nat, a: nat, b: nat)
    ensures Low(x, a + b) == Low(x, a) + Wide(Low(Shr(x, a), b), a)
    decreases a
  {
    if a > 0 {
      LowSplitAt(x / 2, a - 1, b);
    }
  }

  lemma Low3(x: nat)
    ensures Low(x, 3) == x % 8
  {
    assert Low(x / 4, 1) == x / 4 % 2;
    assert Low(x / 2, 2) == 2 * Low(x / 4, 1) + x / 2 % 2;
  }

  lemma Shr3(x: nat)
    ensures Shr(x, 3) == x / 8
  {
    assert Shr(x, 3) == Shr(x / 2, 2) == Shr(x / 2 / 2, 1) == Shr(x / 2 / 2 / 2, 0);
  }

  lemma And63(x: nat)
    ensures And(x, 63) == x % 64
  {
    assert Ones(6) == 63;
    AndOnes(x, 6);
    Low6(x);
  }

  lemma Low6(x: nat)
    ensures Low(x, 6) == x % 64
  {
    hide *;
    LowSplitAt(x, 3, 3);
    Shr3(x);
    Low3(x);
    Low3(x / 8);
    Wide3(x / 8 % 8);
    Mod8x8(x);
  }

  lemma Mod8x8(x: nat)
    ensures x % 64 == x % 8 + 8 * (x / 8 % 8)
  {
  }

  lemma Wide3(y: nat)
    ensures Wide(y, 3) == 8 * y
  {
    assert Wide(y, 3) == 2 * Wide(y, 2) == 4 * Wide(y, 1);
  }

  lemma SlotRange(t: nat, w: nat)
    requires w < WHEEL_NUM
    ensures SlotAt(t, w) == Unit(t, w) % 64 < 64
  {
    ShrGran(t, w);
    And63(Unit(t, w));
  }

  // The unit number a timer is filed under: its own unit on wheel 0, the one before on the others.
  function UnitOf(w: nat, expires: nat): int
    requires w < WHEEL_NUM
  {
    Unit(expires, w) - (if w == 0 then 0 else 1)
  }

  lemma ModTwo64(u: int)
    requires -1 <= u < TWO64
    ensures (u + TWO64) % TWO64 % 64 == u % 64
  {
  }

  // The wheel for a remaining time: its unit is not longer, and the next wheel's is, if there is one.
  predicate HoldsRest(w: nat, rem: nat)
  {
    w < WHEEL_NUM && Gran(w) <= rem && (w + 1 < WHEEL_NUM ==> rem < Gran(w + 1))
  }

  lemma TimeoutSlotIs(wheel: nat, expires: nat)
    requires wheel < WHEEL_NUM && expires < TWO64
    ensures TimeoutSlot(wheel, expires) == UnitOf(wheel, expires) % 64 < 64
  {
    ShrGran(expires, wheel);
    var u := UnitOf(wheel, expires);
    And63((u + TWO64) % TWO64);
    ModTwo64(u);
  }

  // ---- Which wheel ----

  // A remaining time lands on the wheel whose span holds it; the last wheel takes everything
  // beyond.
  lemma WheelOfRemainder(rem: nat)
    requires 0 < rem < TWO64
    ensures TimeoutWheel(rem) < WHEEL_NUM
    ensures var m := if rem < TIMEOUT_MAX then rem else TIMEOUT_MAX;
            Gran(TimeoutWheel(rem)) <= m < Gran(TimeoutWheel(rem) + 1)
  {
    Pow2Values();
    var m := if rem < TIMEOUT_MAX then rem else TIMEOUT_MAX;
    ClzIsTopBit(m, 64);
    var b := 64 - Clz(m, 64) - 1;
    if b >= 24 {
      Pow2Mono(24, b);
    }
    var w := b / 6;
    Pow2Mono(6 * w, b);
    Pow2Mono(b + 1, 6 * w + 6);
    assert w == 0 || w == 1 || w == 2 || w == 3;
  }

  // ---- The bits of the masks ----

  // A slot number that has left `0..64` by less than one turn, brought back.
  function Wrap(d: int): int
  {
    if d < 0 then d + 64 else if d >= 64 then d - 64 else d
  }

  lemma RotLBit(v: nat, c: nat, i: nat)
    requires c < 64 && v < Pow2(64) && i < 64
    ensures Bit(RotL(v, c), i) <==> Bit(v, Wrap(i - c))
  {
    if c > 0 {
      OrBit(Shl(v, c, 64), Shr(v, 64 - c), i);
      ShlBit(v, c, 64, i);
      ShrBit(v, 64 - c, i);
      if i >= c {
        HighBits(v, 64, i + (64 - c));
      }
    }
  }

  lemma RotRBit(v: nat, c: nat, i: nat)
    requires c < 64 && v < Pow2(64) && i < 64
    ensures Bit(RotR(v, c), i) <==> Bit(v, Wrap(i + c))
  {
    if c > 0 {
      OrBit(Shr(v, c), Shl(v, 64 - c, 64), i);
      ShlBit(v, 64 - c, 64, i);
      ShrBit(v, c, i);
      if i + c >= 64 {
        HighBits(v, 64, i + c);
      }
    }
  }

  lemma WrapDiff(x: nat, o: nat)
    requires 0 <= x - o < 64
    ensures Wrap(x % 64 - o % 64) == x - o
  {
    var a, b := x / 64, o / 64;
    assert x == 64 * a + x % 64 && o == 64 * b + o % 64;
  }

  lemma {:induction false} HighBits(v: nat, n: nat, i: nat)
    requires v < Pow2(n) && n <= i
    ensures !Bit(v, i)
  {
    if n == 0 {
      ZeroBit(i);
    } else {
      HighBits(v / 2, n - 1, i - 1);
    }
  }

  lemma RotLBound(v: nat, c: nat)
    requires c < 64 && v < Pow2(64)
    ensures RotL(v, c) < Pow2(64)
  {
    if c > 0 {
      LowBound(Wide(v, c), 64);
      ShrBound(v, 64 - c, 64);
      OrBound(Shl(v, c, 64), Shr(v, 64 - c), 64);
    }
  }

  lemma RotRBound(v: nat, c: nat)
    requires c < 64 && v < Pow2(64)
    ensures RotR(v, c) < Pow2(64)
  {
    if c > 0 {
      LowBound(Wide(v, 64 - c), 64);
      ShrBound(v, c, 64);
      OrBound(Shr(v, c), Shl(v, 64 - c, 64), 64);
    }
  }

  lemma SingleBit(s: nat, i: nat)
    requires s < 64
    ensures Shl(1, s, 64) == Pow2(s) < Pow2(64)
    ensures Bit(Shl(1, s, 64), i) <==> i == s
  {
    ShlOne(s, 64);
    Pow2Mono(s, 63);
    ShlBit(1, s, 64, i);
    if i > s {
      ZeroBit(i - s - 1);
    }
  }

  lemma FillsBound(el: nat, o: nat, n: nat)
    requires el < 64 && o < 64 && n < 64
    ensures Fills(el, o, n) < Pow2(64)
  {
    hide RotL, RotR, Shl;
    Pow2Mono(el, 63);
    var left, turned := RotL(Ones(el), o), RotL(Ones(el), n);
    RotLBound(Ones(el), o);
    RotLBound(Ones(el), n);
    RotRBound(turned, el);
    SingleBit(n, n);
    OrBound(left, RotR(turned, el), 64);
    OrBound(Or(left, RotR(turned, el)), Shl(1, n, 64), 64);
  }

  lemma FillsBit(el: nat, o: nat, n: nat, i: nat)
    requires el < 64 && o < 64 && n < 64 && i < 64
    ensures Bit(Fills(el, o, n), i) <==> Wrap(i - o) < el || Wrap(Wrap(i + el) - n) < el || i == n
  {
    hide RotL, RotR, Shl;
    Pow2Mono(el, 63);
    var left, turned := RotL(Ones(el), o), RotL(Ones(el), n);
    OrBit(Or(left, RotR(turned, el)), Shl(1, n, 64), i);
    OrBit(left, RotR(turned, el), i);
    RotLBit(Ones(el), o, i);
    OnesBit(el, Wrap(i - o));
    RotLBound(Ones(el), n);
    RotRBit(turned, el, i);
    RotLBit(Ones(el), n, Wrap(i + el));
    OnesBit(el, Wrap(Wrap(i + el) - n));
    SingleBit(n, i);
  }

  // A slot is in the mask iff it is one of the `el` slots from the old one on, one of the `el`
  // slots up to the new one, or the new one itself; when 64 slots or more have passed, all are.
  lemma MaskBit(w: nat, elapsed: nat, cur: nat, now: nat, i: nat)
    requires w < WHEEL_NUM && i < 64
    ensures ExpiringMask(w, elapsed, cur, now) < Pow2(64)
    ensures var el, o, n := Unit(elapsed, w), Unit(cur, w) % 64, Unit(now, w) % 64;
            Bit(ExpiringMask(w, elapsed, cur, now), i) <==>
            el > WHEEL_MAX || Wrap(i - o) < el || Wrap(Wrap(i + el) - n) < el || i == n
  {
    hide Fills, Unit, SlotAt, Wrap, Shr, Pow2;
    ShrGran(elapsed, w);
    SlotRange(elapsed, w); SlotRange(cur, w); SlotRange(now, w);
    if Unit(elapsed, w) > WHEEL_MAX {
      OnesBit(64, i);
    } else {
      FillsBound(Unit(elapsed, w), Unit(cur, w) % 64, Unit(now, w) % 64);
      FillsBit(Unit(elapsed, w), Unit(cur, w) % 64, Unit(now, w) % 64, i);
    }
  }

  // How far the unit counter of wheel `w` moves when `elapsed` ticks pass.
  lemma UnitsPassed(w: nat, cur: nat, now: nat)
    requires w < WHEEL_NUM && cur <= now
    ensures 0 <= Unit(now, w) - Unit(cur, w) - Unit(now - cur, w) <= (if w == 0 then 0 else 1)
  {
  }

  // Every unit from the old time to the new one, both included, is in the mask, provided that
  // `elapsed` is the true distance on wheel 0 and at least one slot on the others.
  lemma MaskCovers(w: nat, elapsed: nat, cur: nat, now: nat, x: nat)
    requires w < WHEEL_NUM && cur <= now
    requires elapsed == if now - cur < Gran(w) && w > 0 then Gran(w) else now - cur
    requires Unit(cur, w) <= x <= Unit(now, w)
    ensures Bit(ExpiringMask(w, elapsed, cur, now), x % 64)
  {
    hide ExpiringMask, Wrap, Bit;
    MaskBit(w, elapsed, cur, now, x % 64);
    UnitsPassed(w, cur, now);
    var el, o, n := Unit(elapsed, w), Unit(cur, w), Unit(now, w);
    assert now - cur < Gran(w) ==> Unit(now - cur, w) == 0;
    assert w > 0 ==> el >= 1;
    if el <= WHEEL_MAX && x != n {
      if x - o < el {
        WrapDiff(x, o);
      } else {
        assert x == n - 1 && el >= 1;
        WrapLast(x, el);
      }
    }
  }

  lemma WrapLast(x: nat, el: nat)
    requires 1 <= el < 64
    ensures Wrap(Wrap(x % 64 + el) - (x + 1) % 64) == el - 1
  {
    var q := x / 64;
    assert x == 64 * q + x % 64;
    assert (x + 1) % 64 == if x % 64 == 63 then 0 else x % 64 + 1;
  }

  lemma WithBitIs(m: nat, s: nat, i: nat)
    requires m < Pow2(64) && s < 64
    ensures WithBit(m, s) < Pow2(64)
    ensures Bit(WithBit(m, s), i) <==> Bit(m, i) || i == s
  {
    SingleBit(s, i);
    OrBit(m, Shl(1, s, 64), i);
    OrBound(m, Shl(1, s, 64), 64);
  }

  lemma WithoutBitIs(m: nat, s: nat, i: nat)
    requires m < Pow2(64) && s < 64 && i < 64
    ensures WithoutBit(m, s) < Pow2(64)
    ensures Bit(WithoutBit(m, s), i) <==> Bit(m, i) && i != s
  {
    SingleBit(s, i);
    var mask := Not(Shl(1, s, 64), 64);
    NotBit(Shl(1, s, 64), 64, i);
    AndBit(m, mask, i);
    AndBound(m, mask);
  }

  // ---- Where a timer may stand ----

  // A timer due at `e` may stand in slot `s` of wheel `w` while the clock shows `c`: the slot is
  // the one its deadline selects, and the clock has not yet reached the unit in which it must be
  // looked at.
  ghost predicate Placed(e: nat, w: nat, s: nat, c: nat)
    requires w < WHEEL_NUM
  {
    && s == UnitOf(w, e) % 64
    && (if w == 0 then c < e < c + 64 else Unit(c, w) < Unit(e, w))
    && (0 < w < WHEEL_NUM - 1 ==> Unit(e, w) <= Unit(c, w) + 64)
  }

  // Scheduling puts a timer where it may stand.
  lemma SchedulePlaces(e: nat, c: nat)
    requires c < e < TWO64
    ensures TimeoutWheel(e - c) < WHEEL_NUM && TimeoutSlot(TimeoutWheel(e - c), e) < 64
    ensures Placed(e, TimeoutWheel(e - c), TimeoutSlot(TimeoutWheel(e - c), e), c)
    ensures HoldsRest(TimeoutWheel(e - c), e - c)
  {
    hide TimeoutWheel, TimeoutSlot;
    WheelOfRemainder(e - c);
    TimeoutSlotIs(TimeoutWheel(e - c), e);
    UnitsApart(TimeoutWheel(e - c), c, e);
  }

  lemma UnitsApart(w: nat, c: nat, e: nat)
    requires w < WHEEL_NUM && c < e && Gran(w) <= e - c
    ensures Unit(c, w) < Unit(e, w)
    ensures e - c < Gran(w + 1) ==> Unit(e, w) <= Unit(c, w) + 64
  {
  }

  // A timer still on a wheel is due in the future.
  lemma PlacedIsFuture(e: nat, w: nat, s: nat, c: nat)
    requires w < WHEEL_NUM && Placed(e, w, s, c)
    ensures c < e
  {
  }

  // The unit in which a timer must be looked at.
  lemma PlacedUnit(e: nat, w: nat, s: nat, c: nat)
    requires w < WHEEL_NUM && Placed(e, w, s, c)
    ensures Unit(c, w) <= UnitOf(w, e)
  {
  }

  // A timer in a slot an update passes over may stay where it is.
  lemma StaysPlaced(e: nat, w: nat, s: nat, elapsed: nat, cur: nat, now: nat)
    requires w < WHEEL_NUM && cur <= now
    requires elapsed == if now - cur < Gran(w) && w > 0 then Gran(w) else now - cur
    requires Placed(e, w, s, cur)
    requires s < 64 && !Bit(ExpiringMask(w, elapsed, cur, now), s)
    ensures Placed(e, w, s, now)
  {
    hide ExpiringMask, Unit, Bit;
    PlacedUnit(e, w, s, cur);
    UnitMono(w, cur, now);
    assert Unit(cur, 0) == cur && Unit(now, 0) == now by { UnitZero(cur); UnitZero(now); }
    assert UnitOf(0, e) == e by { UnitZero(e); }
    if UnitOf(w, e) <= Unit(now, w) {
      MaskCovers(w, elapsed, cur, now, UnitOf(w, e));
    }
  }

  lemma UnitZero(t: nat)
    ensures Unit(t, 0) == t
  {
  }

  lemma UnitMono(w: nat, cur: nat, now: nat)
    requires w < WHEEL_NUM && cur <= now
    ensures Unit(cur, w) <= Unit(now, w)
  {
  }

  // If slot 0 is passed over, the next wheel has not moved.
  lemma NoCarry(w: nat, elapsed: nat, cur: nat, now: nat)
    requires w + 1 < WHEEL_NUM && cur <= now
    requires elapsed == if now - cur < Gran(w) && w > 0 then Gran(w) else now - cur
    requires !Bit(ExpiringMask(w, elapsed, cur, now), 0)
    ensures Unit(cur, w + 1) == Unit(now, w + 1)
  {
    hide ExpiringMask, Bit;
    UnitMono(w + 1, cur, now);
    UnitNext(w, cur);
    UnitNext(w, now);
    if Unit(cur, w + 1) < Unit(now, w + 1) {
      var x := 64 * Unit(now, w + 1);
      MaskCovers(w, elapsed, cur, now, x);
    }
  }

  lemma UnitNext(w: nat, t: nat)
    requires w + 1 < WHEEL_NUM
    ensures 64 * Unit(t, w + 1) <= Unit(t, w) < 64 * Unit(t, w + 1) + 64
  {
  }

  // A wheel that has not moved leaves the ones above it where they are, and every timer on them.
  lemma HigherWheelsStill(v: nat, w: nat, cur: nat, now: nat)
    requires v <= w < WHEEL_NUM && Unit(cur, v) == Unit(now, v)
    ensures Unit(cur, w) == Unit(now, w)
    decreases w - v
  {
    if v < w {
      UnitNext(v, cur);
      UnitNext(v, now);
      HigherWheelsStill(v + 1, w, cur, now);
    }
  }

  // `elapsed` as the update loop carries it to wheel `w`.
  function Elapsed(w: nat, cur: nat, now: nat): nat
    requires w <= WHEEL_NUM && cur <= now
  {
    if w > 0 && now - cur < Gran(w) then Gran(w) else now - cur
  }

  // The larger of the elapsed time and one slot of the next wheel is what the next wheel must be
  // passed with: its mask then covers every unit that wheel has moved.
  lemma NextElapsed(w: nat, cur: nat, now: nat)
    requires w < WHEEL_NUM && cur <= now
    ensures Shl(WHEEL_LEN, w * WHEEL_BIT, 32) == Gran(w + 1)
    ensures Elapsed(w + 1, cur, now) == if Elapsed(w, cur, now) > Gran(w + 1) then Elapsed(w, cur, now) else Gran(w + 1)
    ensures w + 1 < WHEEL_NUM ==> forall x :: Unit(cur, w + 1) <= x <= Unit(now, w + 1) ==>
              Bit(ExpiringMask(w + 1, Elapsed(w + 1, cur, now), cur, now), x % 64)
  {
    ShlGran(WHEEL_LEN, w);
    hide ExpiringMask, Unit, Bit;
    if w + 1 < WHEEL_NUM {
      forall x | Unit(cur, w + 1) <= x <= Unit(now, w + 1)
        ensures Bit(ExpiringMask(w + 1, Elapsed(w + 1, cur, now), cur, now), x % 64)
      {
        MaskCovers(w + 1, Elapsed(w + 1, cur, now), cur, now, x);
      }
    }
  }

  // The timers of a wheel that has not moved may stay where they are.
  lemma StillPlaced(e: nat, v: nat, s: nat, w: nat, cur: nat, now: nat)
    requires w < v < WHEEL_NUM && cur <= now
    requires !Bit(ExpiringMask(w, Elapsed(w, cur, now), cur, now), 0)
    requires Placed(e, v, s, cur)
    ensures Placed(e, v, s, now)
  {
    hide ExpiringMask, Unit;
    NoCarry(w, Elapsed(w, cur, now), cur, now);
    HigherWheelsStill(w + 1, v, cur, now);
  }

  // ---- Periodic timers ----

  // The deadline `timeouts_readd` computes, in 64-bit arithmetic.
  function Readd(expires: nat, interval: nat, cur: nat): nat
    requires interval > 0
  {
    var e := (expires + interval) % TWO64;
    if e <= cur then
      var r := (cur - e) % interval;
      (cur + (interval - r)) % TWO64
    else e
  }

  // The first time after `cur` that is a whole number of intervals from `expires`.
  function NextFire(expires: nat, interval: nat, cur: nat): (v: nat)
    requires interval > 0 && expires <= cur
    ensures cur < v <= cur + interval
  {
    cur + interval - (cur - expires) % interval
  }

  lemma NextFireIsMultiple(expires: nat, interval: nat, cur: nat) returns (k: nat)
    requires interval > 0 && expires <= cur
    ensures k > 0 && NextFire(expires, interval, cur) == expires + k * interval
  {
    var q := (cur - expires) / interval;
    DivMul(cur - expires, interval);
    k := q + 1;
    assert (q + 1) * interval == q * interval + interval;
  }

  lemma DivMul(x: nat, d: nat)
    requires d > 0
    ensures x == x / d * d + x % d
  {
  }

  // No other time in the next interval is.
  lemma NextFireUnique(expires: nat, interval: nat, cur: nat, v: nat, k: int)
    requires interval > 0 && expires <= cur
    requires cur < v <= cur + interval && v == expires + k * interval
    ensures v == NextFire(expires, interval, cur)
  {
    var j := NextFireIsMultiple(expires, interval, cur);
    if k < j {
      MulGap(k, j, interval);
    } else if k > j {
      MulGap(j, k, interval);
    }
  }

  lemma MulGap(a: int, b: int, d: nat)
    requires a < b
    ensures a * d + d <= b * d
  {
    assert (b - a - 1) * d >= 0;
    assert b * d == a * d + d + (b - a - 1) * d;
  }

  // The re-added deadline is the right one exactly when the right one fits in a word.
  lemma ReaddExact(expires: nat, interval: nat, cur: nat)
    requires 0 < interval < TWO64 && expires <= cur < TWO64
    ensures Readd(expires, interval, cur) == NextFire(expires, interval, cur) <==>
            NextFire(expires, interval, cur) < TWO64
  {
    if expires + interval > cur {
      ModSmall(cur - expires, interval);
      Mod64Bits(expires + interval);
      if expires + interval >= TWO64 {
        ReaddFits(expires, interval, cur);
      }
    } else {
      ReaddLate(expires, interval, cur);
      Mod64Bits(NextFire(expires, interval, cur));
    }
  }

  lemma Mod64Bits(v: nat)
    ensures v % TWO64 == v <==> v < TWO64
  {
  }

  // A timer that missed at least one firing.
  lemma ReaddLate(expires: nat, interval: nat, cur: nat)
    requires 0 < interval && expires + interval <= cur < TWO64
    ensures Readd(expires, interval, cur) == NextFire(expires, interval, cur) % TWO64
  {
    ModStep(cur - expires, interval);
    Mod64Bits(expires + interval);
    var r := (cur - (expires + interval)) % interval;
    assert r == (cur - expires) % interval;
    assert cur + (interval - r) == NextFire(expires, interval, cur);
  }

  lemma ReaddFits(expires: nat, interval: nat, cur: nat)
    requires interval > 0
    ensures Readd(expires, interval, cur) < TWO64
  {
  }

  lemma ModSmall(x: nat, d: nat)
    requires x < d
    ensures x % d == x
  {
  }

  lemma ModStep(x: nat, d: nat)
    requires 0 < d <= x
    ensures x % d == (x - d) % d
  {
    var q := (x - d) / d;
    DivMul(x - d, d);
    DivMul(x, d);
    assert (q + 1) * d == q * d + d;
    var p := x / d;
    if p < q + 1 {
      MulGap(p, q + 1, d);
    } else if p > q + 1 {
      MulGap(q + 1, p, d);
    }
  }

  // With 64-bit wrap-around the next firing can be lost: here it is put in the past.
  lemma ReaddWraps()
    ensures Readd(TWO64 - 10, TWO64 - 6, TWO64 - 5) != NextFire(TWO64 - 10, TWO64 - 6, TWO64 - 5)
    ensures Readd(TWO64 - 10, TWO64 - 6, TWO64 - 5) < TWO64 - 5
  {
    ReaddExact(TWO64 - 10, TWO64 - 6, TWO64 - 5);
  }

  // ---- The soft timeout ----

  // `n` units of wheel `w`, in ticks.
  function Ticks(n: nat, w: nat): nat
    requires w < WHEEL_NUM
  {
    if w == 0 then n else if w == 1 then 64 * n else if w == 2 then 4096 * n else 262144 * n
  }

  // Slots from the current one to the next occupied one of wheel `w`.
  function Ahead(mask: nat, w: nat, cur: nat): nat
    requires w < WHEEL_NUM && 0 < mask < Pow2(64)
  {
    SlotRange(cur, w);
    RotRNonzero(mask, SlotAt(cur, w));
    Ctz(RotR(mask, SlotAt(cur, w)))
  }

  lemma RotRNonzero(mask: nat, c: nat)
    requires 0 < mask < Pow2(64) && c < 64
    ensures RotR(mask, c) > 0
  {
    hide RotR;
    var i := SomeBit(mask, 64);
    RotRBit(mask, c, Wrap(i - c));
    ZeroBit(Wrap(i - c));
  }

  lemma AheadIs(mask: nat, w: nat, cur: nat)
    requires w < WHEEL_NUM && 0 < mask < Pow2(64)
    ensures Ahead(mask, w, cur) < 64
    ensures Bit(mask, Wrap(Unit(cur, w) % 64 + Ahead(mask, w, cur)))
  {
    hide RotR, Unit, Bit, Ctz;
    SlotRange(cur, w);
    var c := SlotAt(cur, w);
    RotRNonzero(mask, c);
    var turned := RotR(mask, c);
    RotRBound(mask, c);
    CtzIsLowBit(turned);
    if Ctz(turned) >= 64 {
      HighBits(turned, 64, Ctz(turned));
    }
    RotRBit(mask, c, Ctz(turned));
  }

  lemma AheadAtMost(mask: nat, w: nat, cur: nat, j: nat)
    requires w < WHEEL_NUM && 0 < mask < Pow2(64)
    requires j < 64 && Bit(mask, Wrap(Unit(cur, w) % 64 + j))
    ensures Ahead(mask, w, cur) <= j
  {
    hide RotR, Unit, Bit, Ctz;
    SlotRange(cur, w);
    RotRNonzero(mask, SlotAt(cur, w));
    RotRBit(mask, SlotAt(cur, w), j);
    CtzAtMost(RotR(mask, SlotAt(cur, w)), j);
  }

  // Ticks until wheel `w` next has something to look at.
  function WheelSoft(mask: nat, w: nat, cur: nat): int
    requires w < WHEEL_NUM && 0 < mask < Pow2(64)
  {
    Ticks(Ahead(mask, w, cur) + (if w == 0 then 0 else 1), w) - (cur - Ticks(Unit(cur, w), w))
  }

  // What a timer on wheel `w` makes the caller wake up for: on wheel 0 its deadline, above it the start
  // of the unit in which its deadline lies, or of an earlier one a whole number of turns before, if
  // the deadline is more than a turn away.
  function WakeAt(e: nat, w: nat, cur: nat): nat
    requires w < WHEEL_NUM && Unit(cur, w) < Unit(e, w)
  {
    Ticks(Unit(cur, w) + 1 + (Unit(e, w) - Unit(cur, w) - 1) % 64, w)
  }

  lemma PlacedAhead(e: nat, w: nat, s: nat, cur: nat)
    requires w < WHEEL_NUM && Placed(e, w, s, cur)
    ensures Unit(cur, w) < Unit(e, w)
  {
    UnitZero(cur);
    UnitZero(e);
  }

  // It is never after the deadline, and it is the start of the deadline's own unit, or the deadline
  // itself on wheel 0, if and only if that unit is within a turn.
  lemma WakeAtIs(e: nat, w: nat, s: nat, cur: nat)
    requires w < WHEEL_NUM && Placed(e, w, s, cur)
    ensures Unit(cur, w) < Unit(e, w) && cur < WakeAt(e, w, cur) <= e
    ensures WakeAt(e, w, cur) == Ticks(Unit(e, w), w) <==> Unit(e, w) <= Unit(cur, w) + 64
    ensures w == 0 ==> WakeAt(e, w, cur) == e
    ensures w < WHEEL_NUM - 1 ==> WakeAt(e, w, cur) == Ticks(Unit(e, w), w)
  {
    PlacedAhead(e, w, s, cur);
    UnitZero(cur);
    UnitZero(e);
  }

  // On the last wheel a deadline can be more than a turn away: with the clock at 0 and the deadline at
  // the start of unit 100, the caller is woken at the start of unit 36.
  lemma WakeFar()
    ensures Placed(Ticks(100, 3), 3, 35, 0) && WakeAt(Ticks(100, 3), 3, 0) == Ticks(36, 3)
  {
  }

  // No timer of the wheel wakes the caller before then, and those in the slot found do it then.
  lemma SoftIsWake(mask: nat, w: nat, cur: nat, e: nat, s: nat)
    requires w < WHEEL_NUM && 0 < mask < Pow2(64)
    requires s < 64 && Bit(mask, s) && Placed(e, w, s, cur)
    ensures Unit(cur, w) < Unit(e, w) && cur + WheelSoft(mask, w, cur) <= WakeAt(e, w, cur)
    ensures s == (Unit(cur, w) + Ahead(mask, w, cur)) % 64 ==> cur + WheelSoft(mask, w, cur) == WakeAt(e, w, cur)
  {
    hide Ahead, Bit, Pow2;
    AheadIs(mask, w, cur);
    PlacedAhead(e, w, s, cur);
    var j := (UnitOf(w, e) - Unit(cur, w)) % 64;
    SlotTurns(Unit(cur, w), UnitOf(w, e));
    WrapSum(Unit(cur, w), j);
    AheadAtMost(mask, w, cur, j);
    UniqueTurn(Unit(cur, w), Ahead(mask, w, cur), j);
    WakeArith(e, w, cur, Ahead(mask, w, cur), j);
  }

  lemma SlotTurns(a: nat, b: nat)
    requires a <= b
    ensures (a + (b - a) % 64) % 64 == b % 64
  {
  }

  lemma UniqueTurn(a: nat, i: nat, j: nat)
    requires i < 64 && j < 64
    ensures (a + i) % 64 == (a + j) % 64 <==> i == j
  {
    if i < j { OneTurn(a + i, j - i); }
    if j < i { OneTurn(a + j, i - j); }
  }

  lemma OneTurn(a: nat, d: nat)
    requires 0 < d < 64
    ensures (a + d) % 64 != a % 64
  {
  }

  lemma WakeArith(e: nat, w: nat, cur: nat, k: nat, j: nat)
    requires w < WHEEL_NUM && Unit(cur, w) < Unit(e, w) && (w == 0 ==> e < cur + 64)
    requires k <= j == (UnitOf(w, e) - Unit(cur, w)) % 64
    ensures var soft := Ticks(k + (if w == 0 then 0 else 1), w) - (cur - Ticks(Unit(cur, w), w));
      cur + soft <= WakeAt(e, w, cur) && (k == j ==> cur + soft == WakeAt(e, w, cur))
  {
    UnitZero(cur);
    UnitZero(e);
  }

  // No timer of the wheel is due before then.
  lemma SoftBelow(mask: nat, w: nat, cur: nat, e: nat, s: nat)
    requires w < WHEEL_NUM && 0 < mask < Pow2(64)
    requires s < 64 && Bit(mask, s) && Placed(e, w, s, cur)
    ensures WheelSoft(mask, w, cur) <= e - cur
  {
    SoftIsWake(mask, w, cur, e, s);
    WakeAtIs(e, w, s, cur);
  }

  lemma WrapSum(x: nat, j: nat)
    requires j < 64
    ensures Wrap(x % 64 + j) == (x + j) % 64
  {
  }

  // The wait is never zero: the current slot of wheel 0 is empty, and the others look one unit
  // ahead.
  lemma SoftPositive(mask: nat, w: nat, cur: nat)
    requires w < WHEEL_NUM && 0 < mask < Pow2(64)
    requires w == 0 ==> !Bit(mask, cur % 64)
    ensures 1 <= WheelSoft(mask, w, cur) <= 64 * Gran(w)
  {
    hide Ahead, Bit, Pow2;
    AheadIs(mask, w, cur);
    WrapSum(cur, 0);
    UnitZero(cur);
  }

  // A timer on wheel 0 keeps the current slot of wheel 0 empty.
  lemma CurrentSlotEmpty(e: nat, cur: nat)
    ensures !Placed(e, 0, cur % 64, cur)
  {
    UnitZero(e);
    if cur < e < cur + 64 {
      NotSameSlot(e, cur);
    }
  }

  lemma NotSameSlot(e: nat, cur: nat)
    requires cur < e < cur + 64
    ensures e % 64 != cur % 64
  {
    var q := cur / 64;
    if e < 64 * q + 64 {
      assert e / 64 == q;
    } else {
      assert e / 64 == q + 1;
    }
  }

  // `k << (w * WHEEL_BIT)`.
  lemma ShlGran(k: nat, w: nat)
    requires w < WHEEL_NUM && k <= 64
    ensures Shl(k, w * WHEEL_BIT, 64) == Ticks(k, w)
    ensures Shl(k, w * WHEEL_BIT, 32) == Ticks(k, w)
  {
    WideGran(k, w);
    Pow2Values();
    LowFits(Ticks(k, w), 64);
    LowFits(Ticks(k, w), 32);
  }

  lemma WideGran(k: nat, w: nat)
    requires w < WHEEL_NUM
    ensures Wide(k, w * WHEEL_BIT) == Ticks(k, w)
  {
    Wide6(k, 0);
    Wide6(k, 6);
    Wide6(k, 12);
  }

  lemma Wide6(k: nat, n: nat)
    ensures Wide(k, n + 6) == 64 * Wide(k, n)
  {
    assert Wide(k, n + 6) == 2 * Wide(k, n + 5) == 4 * Wide(k, n + 4) == 8 * Wide(k, n + 3);
    assert Wide(k, n + 3) == 2 * Wide(k, n + 2) == 4 * Wide(k, n + 1);
  }

  // `relmask & curtime`: how far the lower wheels have turned since wheel `w` last moved.
  lemma Progress(cur: nat, w: nat)
    requires w < WHEEL_NUM
    ensures And(cur, Ones(w * WHEEL_BIT)) == cur - Ticks(Unit(cur, w), w)
  {
    AndOnes(cur, w * WHEEL_BIT);
    LowIs(cur, w * WHEEL_BIT);
    ShrGran(cur, w);
    WideGran(Unit(cur, w), w);
  }

  lemma {:induction false} LowIs(x: nat, n: nat)
    ensures x == Low(x, n) + Wide(Shr(x, n), n)
    decreases n
  {
    if n > 0 {
      LowIs(x / 2, n - 1);
    }
  }

  // `relmask <<= WHEEL_BIT; relmask |= WHEEL_MASK`.
  lemma NextRelmask(n: nat)
    requires n + 6 < 64
    ensures Or(Shl(Ones(n), 6, 64), 63) == Ones(n + 6)
  {
    hide Bit, Or;
    var shifted := Shl(Ones(n), 6, 64);
    LowBound(Wide(Ones(n), 6), 64);
    Pow2Mono(6, 64);
    assert Ones(6) == 63 by { Pow2Values(); }
    OrBound(shifted, 63, 64);
    Pow2Mono(n + 6, 64);
    forall i: nat | i < 64
      ensures Bit(Or(shifted, 63), i) <==> Bit(Ones(n + 6), i)
    {
      OrBit(shifted, 63, i);
      ShlBit(Ones(n), 6, 64, i);
      OnesBit(6, i);
      OnesBit(n + 6, i);
      if i >= 6 {
        OnesBit(n, i - 6);
      }
    }
    SameBits(Or(shifted, 63), Ones(n + 6), 64);
  }

  // The slot `ctz(mask & pending)` names is in both.
  lemma FirstSlot(mask: nat, pending: nat)
    requires mask < Pow2(64) && And(mask, pending) > 0
    ensures Ctz(And(mask, pending)) < 64
    ensures Bit(mask, Ctz(And(mask, pending))) && Bit(pending, Ctz(And(mask, pending)))
  {
    hide Bit, Ctz, And;
    var both := And(mask, pending);
    CtzIsLowBit(both);
    AndBit(mask, pending, Ctz(both));
    AndBound(mask, pending);
    if Ctz(both) >= 64 {
      HighBits(both, 64, Ctz(both));
    }
  }
}
