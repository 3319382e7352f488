// src/benchmarks/c/impl/lawn2_clamped.c: ttls are rounded up, more coarsely the longer they are, so
// that a lawn has few distinct ones.
module ClampedLawn {
  import opened Words
  import opened TimerBag
  import opened Granules
  import opened Lists
  import LawnStore
  import Lawn2
  import opened Differential

  // The largest ttl for which rounding up stays within 64 bits.
  const LONGEST: nat := 0xFFFF_FFFF_FF00_0000

  // The level whose range holds ttl: below 2^(6 + 3 * level), and 8 for the rest.
  function LevelFor(ttl: nat, l: nat): (r: nat)
    requires l <= 8
    ensures l <= r <= 8
    decreases 8 - l
  {
    if l < 8 && ttl >= Up(64, l) then LevelFor(ttl, l + 1) else l
  }

  // ttl rounded up to a multiple of 8^l
  function RoundUp(ttl: nat, l: nat): nat
  {
    UpPositive(l);
    Up(Down(ttl + (Gran(l) - 1), l), l)
  }

  // What clamp_timer_ttl computes while ttl is at most LONGEST.
  function Clamp(ttl: nat): nat { RoundUp(ttl, LevelFor(ttl, 0)) }

  lemma {:induction false} LevelForIs(ttl: nat, l: nat)
    requires l <= 8 && (l > 0 ==> Up(64, l - 1) <= ttl)
    ensures var r := LevelFor(ttl, l); (r > 0 ==> Up(64, r - 1) <= ttl) && (r < 8 ==> ttl < Up(64, r))
    decreases 8 - l
  {
    if l < 8 && ttl >= Up(64, l) { LevelForIs(ttl, l + 1); }
  }

  // The least multiple that is not below ttl.
  lemma RoundUpIs(ttl: nat, l: nat)
    ensures ttl <= RoundUp(ttl, l) < ttl + Gran(l)
    ensures forall m :: ttl <= Up(m, l) ==> RoundUp(ttl, l) <= Up(m, l)
  {
    UpPositive(l);
    var c := ttl + Gran(l) - 1;
    var q := Down(c, l);
    DownIs(c, q, l);
    DownIs(c, q + 1, l);
    UpSum(q, 1, l);
    forall m | ttl <= Up(m, l) ensures RoundUp(ttl, l) <= Up(m, l) {
      if m < q {
        UpMono(m + 1, q, l);
        UpSum(m, 1, l);
      }
      UpMono(q, m, l);
    }
  }

  // A clamped ttl is never shorter, and longer by at most an eighth.
  lemma ClampBounds(ttl: nat)
    ensures ttl <= Clamp(ttl) && 8 * (Clamp(ttl) - ttl) <= ttl
    ensures ttl < 64 ==> Clamp(ttl) == ttl
  {
    var l := LevelFor(ttl, 0);
    LevelForIs(ttl, 0);
    RoundUpIs(ttl, l);
    if l > 0 {
      UpEights(8, l - 1);
      UpEights(1, l);
      assert Up(8, l) == 8 * Gran(l);
    }
  }

  lemma LevelMono(s: nat, t: nat)
    requires s <= t
    ensures LevelFor(s, 0) <= LevelFor(t, 0)
  {
    var k, l := LevelFor(s, 0), LevelFor(t, 0);
    LevelForIs(s, 0);
    LevelForIs(t, 0);
    if k > l + 1 { UpMonoLevel(64, l, k - 1); }
  }

  // Rounding up never leaves the level's range but for its end.
  lemma ClampInLevel(ttl: nat)
    ensures ttl <= Clamp(ttl)
    ensures LevelFor(ttl, 0) < 8 ==> Clamp(ttl) <= Up(64, LevelFor(ttl, 0))
    ensures LevelFor(ttl, 0) > 0 ==> Up(64, LevelFor(ttl, 0) - 1) <= ttl
  {
    var l := LevelFor(ttl, 0);
    LevelForIs(ttl, 0);
    RoundUpIs(ttl, l);
  }

  lemma RoundMono(s: nat, t: nat, l: nat)
    requires s <= t
    ensures RoundUp(s, l) <= RoundUp(t, l)
  {
    UpPositive(l);
    var m := Down(t + (Gran(l) - 1), l);
    assert RoundUp(t, l) == Up(m, l);
    hide RoundUp, Up, Down, Gran;
    RoundUpIs(s, l);
    RoundUpIs(t, l);
  }

  lemma ClampMonotone(s: nat, t: nat)
    requires s <= t
    ensures Clamp(s) <= Clamp(t)
  {
    var k, l := LevelFor(s, 0), LevelFor(t, 0);
    LevelMono(s, t);
    if k == l {
      hide LevelFor, RoundUp;
      RoundMono(s, t, k);
    } else {
      ClampInLevel(s);
      ClampInLevel(t);
      hide LevelFor, Clamp, Up;
      UpMonoLevel(64, k, l - 1);
    }
  }

  lemma LevelNext(c: nat, l: nat)
    requires l <= 8 && c <= Up(64, l)
    ensures LevelFor(c, 0) <= l + 1
  {
    LevelForIs(c, 0);
    var k := LevelFor(c, 0);
    UpMono(64, 8, l + 1);
    UpEights(8, l);
    if k > l + 1 { UpMonoLevel(64, l + 1, k - 1); }
  }

  // A multiple of its level's granule is clamped already.
  lemma MultipleStays(c: nat, m: nat)
    requires c == Up(m, LevelFor(c, 0))
    ensures Clamp(c) == c
  {
    RoundUpIs(c, LevelFor(c, 0));
  }

  lemma ClampIdempotent(ttl: nat)
    ensures Clamp(Clamp(ttl)) == Clamp(ttl)
  {
    var c := Clamp(ttl);
    var l, k := LevelFor(ttl, 0), LevelFor(c, 0);
    var m := Down(ttl + (Gran(l) - 1), l);
    assert c == Up(m, l);
    ClampInLevel(ttl);
    LevelMono(ttl, c);
    if k == l {
      MultipleStays(c, m);
    } else {
      // rounded up to the end of its level, which is a multiple of the next one's granule
      LevelNext(c, l);
      ClampInLevel(c);
      UpEights(8, l);
      MultipleStays(c, 8);
    }
  }

  // ---- How few clamped ttls there are ----

  // 2^27
  const SMALL: nat := 0x800_0000

  // Numbers the clamped values up to SMALL: 64 of level 0, 56 of each level from 1 to 7, and SMALL.
  function Index(v: nat): nat
  {
    var l := LevelFor(v, 0);
    if l == 0 then v else if Down(v, l) < 8 then 64 + 56 * (l - 1) else 64 + 56 * (l - 1) + (Down(v, l) - 8)
  }

  lemma SmallIs()
    ensures Up(64, 7) == SMALL && Up(8, 8) == SMALL
  {
    assert Up(64, 1) == 512 && Up(64, 2) == 4096 && Up(64, 3) == 32768 && Up(64, 4) == 262144;
    assert Up(64, 5) == 8 * Up(64, 4) && Up(64, 6) == 8 * Up(64, 5) && Up(64, 7) == 8 * Up(64, 6);
    UpEights(8, 7);
  }

  // Within a level the clamped values are 8 to 63 granules.
  lemma GranulesOf(v: nat)
    requires v <= SMALL && LevelFor(v, 0) > 0
    ensures var l := LevelFor(v, 0); 8 <= Down(v, l) < 64 && (l == 8 ==> Down(v, l) == 8)
  {
    var l := LevelFor(v, 0);
    LevelForIs(v, 0);
    SmallIs();
    UpEights(8, l - 1);
    DownIs(v, 8, l);
    DownIs(v, 9, l);
    DownIs(v, 64, l);
    if l == 8 { UpMono(9, 8, 8); }
  }

  lemma IndexBound(v: nat)
    requires v <= SMALL
    ensures Index(v) < 457
    ensures LevelFor(v, 0) == 0 ==> Index(v) < 64
    ensures LevelFor(v, 0) > 0 ==> 64 + 56 * (LevelFor(v, 0) - 1) <= Index(v) < 64 + 56 * LevelFor(v, 0)
  {
    LevelForIs(v, 0);
    if LevelFor(v, 0) > 0 { GranulesOf(v); }
  }

  lemma ClampedIs(v: nat)
    requires Clamp(v) == v
    ensures v == Up(Down(v, LevelFor(v, 0)), LevelFor(v, 0))
  {
    var l := LevelFor(v, 0);
    var q := Down(v + (Gran(l) - 1), l);
    DownIs(v, q, l);
    DownIs(v, q + 1, l);
    UpMono(q + 1, q, l);
  }

  lemma IndexInjective(v: nat, w: nat)
    requires v <= SMALL && w <= SMALL && Clamp(v) == v && Clamp(w) == w && Index(v) == Index(w)
    ensures v == w
  {
    IndexBound(v);
    IndexBound(w);
    ClampedIs(v);
    ClampedIs(w);
    assert LevelFor(v, 0) == LevelFor(w, 0);
    if LevelFor(v, 0) > 0 {
      GranulesOf(v);
      GranulesOf(w);
    }
  }

  predicate AllClamped(s: set<nat>) { forall v :: v in s ==> v <= SMALL && Clamp(v) == v }

  predicate Injective(s: set<nat>) { forall v, w :: v in s && w in s && Index(v) == Index(w) ==> v == w }

  function Image(s: set<nat>): set<nat> { set v | v in s :: Index(v) }

  lemma {:induction false} ImageSize(s: set<nat>)
    requires Injective(s)
    ensures |Image(s)| == |s|
  {
    hide Index;
    if s != {} {
      var x :| x in s;
      ImageSize(s - {x});
      assert Image(s) == Image(s - {x}) + {Index(x)};
    }
  }

  function Below(n: nat): (s: set<nat>)
    ensures forall i :: i in s <==> 0 <= i < n
  {
    if n == 0 then {} else Below(n - 1) + {n - 1}
  }

  lemma {:induction false} BelowSize(n: nat)
    ensures |Below(n)| == n
  {
    if n > 0 { BelowSize(n - 1); }
  }

  // The clamped values of any set of ttls below SMALL are few.
  lemma FewClamped(s: set<nat>)
    requires AllClamped(s)
    ensures |s| <= 457
  {
    hide Index, Clamp, Image;
    forall v, w | v in s && w in s && Index(v) == Index(w) ensures v == w { IndexInjective(v, w); }
    ImageSize(s);
    BelowSize(457);
    ImageBelow(s);
    SubsetSize(Image(s), Below(457));
  }

  lemma ImageBelow(s: set<nat>)
    requires AllClamped(s)
    ensures Image(s) <= Below(457)
  {
    hide Index, Clamp, Below;
    forall i | i in Image(s) ensures i in Below(457) {
      var v :| v in s && Index(v) == i;
      IndexBound(v);
    }
  }

  lemma ClampBelow(ttl: nat)
    requires ttl < SMALL
    ensures Clamp(ttl) <= SMALL
  {
    SmallIs();
    var l := LevelFor(ttl, 0);
    LevelSmall(ttl);
    RoundUpIs(ttl, l);
    UpUp(64, 7 - l, l);
  }

  lemma LevelSmall(ttl: nat)
    requires ttl < SMALL
    ensures LevelFor(ttl, 0) < 8
  {
    LevelForIs(ttl, 0);
    SmallIs();
  }

  // ---- The bits ----

  lemma ThreeMore(v: nat, n: nat)
    ensures Wide(v, n + 3) == 8 * Wide(v, n) && Shr(v, n + 3) == Shr(v / 8, n) && Pow2(n + 3) == 8 * Pow2(n)
  {
    assert Wide(v, n + 2) == 4 * Wide(v, n) by { assert Wide(v, n + 1) == 2 * Wide(v, n); }
    assert Pow2(n + 2) == 4 * Pow2(n) by { assert Pow2(n + 1) == 2 * Pow2(n); }
    assert Shr(v, n + 3) == Shr(v / 2, n + 2);
    assert Shr(v / 2, n + 2) == Shr(v / 2 / 2, n + 1);
    assert Shr(v / 2 / 2, n + 1) == Shr(v / 2 / 2 / 2, n);
  }

  lemma {:induction false} UpWide(m: nat, l: nat)
    ensures Up(m, l) == Wide(m, 3 * l)
  {
    if l > 0 {
      UpWide(m, l - 1);
      ThreeMore(m, 3 * l - 3);
    }
  }

  lemma {:induction false} DownShr(x: nat, l: nat)
    ensures Down(x, l) == Shr(x, 3 * l)
  {
    if l > 0 {
      DownShr(x / 8, l - 1);
      ThreeMore(x, 3 * l - 3);
    }
  }

  lemma {:induction false} WideShr(x: nat, n: nat)
    ensures Wide(Shr(x, n), n) <= x
  {
    if n > 0 { WideShr(x / 2, n - 1); }
  }

  lemma MaskOffBit(x: nat, n: nat, i: nat)
    requires n <= 64 && i < 64 && Ones(n) < Pow2(64)
    ensures Bit(And(x, Not(Ones(n), 64)), i) <==> Bit(Wide(Shr(x, n), n), i)
  {
    hide Bit, And, Not, Ones, Wide, Shr, Pow2;
    AndBit(x, Not(Ones(n), 64), i);
    NotBit(Ones(n), 64, i);
    OnesBit(n, i);
    WideBit(Shr(x, n), n, i);
    if n <= i { ShrBit(x, n, i - n); }
  }

  // x & ~mask
  lemma MaskOff(x: nat, n: nat)
    requires x < Pow2(64) && n <= 64
    ensures Ones(n) < Pow2(64) && And(x, Not(Ones(n), 64)) == Wide(Shr(x, n), n)
  {
    Pow2Mono(n, 64);
    assert Ones(n) < Pow2(64);
    hide Bit, And, Not, Ones, Wide, Shr, Pow2;
    AndBound(x, Not(Ones(n), 64));
    WideShr(x, n);
    forall i: nat | i < 64 ensures Bit(And(x, Not(Ones(n), 64)), i) <==> Bit(Wide(Shr(x, n), n), i) {
      MaskOffBit(x, n, i);
    }
    SameBits(And(x, Not(Ones(n), 64)), Wide(Shr(x, n), n), 64);
  }

  lemma {:induction false} PowUp(l: nat)
    ensures Pow2(3 * l) == Gran(l) && Pow2(6 + 3 * l) == Up(64, l)
  {
    if l == 0 {
      assert Pow2(3) == 8;
      ThreeMore(0, 3);
    } else {
      PowUp(l - 1);
      ThreeMore(0, 3 * l - 3);
      ThreeMore(0, 3 * l + 3);
    }
  }

  // (ttl + mask) & ~mask on 64 bits, for the mask of a level
  method RoundBits(ttl: nat, l: nat) returns (c: nat)
    requires ttl < TWO64 && l <= 8
    ensures ttl + (Gran(l) - 1) < TWO64 ==> c == RoundUp(ttl, l)
    ensures ttl + (Gran(l) - 1) >= TWO64 ==> c == 0
  {
    var mask := Ones(3 * l);
    var sum := if ttl + mask < TWO64 then ttl + mask else ttl + mask - TWO64;
    Pow2Values();
    PowUp(l);
    MaskOff(sum, 3 * l);
    c := And(sum, Not(mask, 64));
    DownShr(sum, l);
    UpWide(Down(sum, l), l);
    if ttl + mask >= TWO64 {
      DownIs(sum, 1, l);
      assert Down(sum, l) == 0;
      UpZero(l);
    }
  }

  lemma {:induction false} UpZero(l: nat)
    ensures Up(0, l) == 0
  {
    if l > 0 { UpZero(l - 1); }
  }

  // clamp_timer_ttl. Beyond LONGEST the sum wraps and the result is 0.
  method ClampTimerTtl(ttl: nat) returns (c: nat)
    requires ttl < TWO64
    ensures c == if ttl <= LONGEST then Clamp(ttl) else 0
  {
    Gran8();
    if ttl < 64 {
      ClampBounds(ttl);
      return ttl;
    }
    var level := 1;
    while level < 8 && ttl >= Pow2(6 + 3 * level)
      invariant 1 <= level <= 8 && LevelFor(ttl, level) == LevelFor(ttl, 0)
    {
      PowUp(level);
      level := level + 1;
    }
    PowUp(level);
    UpMonoLevel(1, level, 8);
    if level < 8 {
      FitsLevel(level);
    }
    c := RoundBits(ttl, level);
  }

  lemma Gran8()
    ensures Gran(8) == 16777216
  {
    UpEight(1);
  }

  lemma FitsLevel(l: nat)
    requires l < 8
    ensures Up(64, l) + Gran(8) <= LONGEST
  {
    SmallIs();
    Gran8();
    UpMonoLevel(64, l, 7);
  }

  // ---- The store ----

  // Every TTL the table has seen is a clamped one up to SMALL.
  ghost predicate Small(store: LawnStore.Store)
    reads store, store.lawn
  {
    AllClamped(store.lawn.bucket.Keys)
  }

  // A lawn under small clamped ttls never outgrows 1024 slots.
  lemma TableStaysSmall(store: LawnStore.Store)
    requires store.Valid() && Small(store)
    ensures |store.lawn.bucket| <= 457 && store.lawn.cap <= 1024
  {
    hide Lawn2.Lawn.Queues, Lawn2.Lawn.Live, Clamp;
    var l := store.lawn;
    FewClamped(l.bucket.Keys);
    assert |l.bucket| == |l.bucket.Keys|;
    if l.cap > 1024 {
      Pow2Ten();
      if l.bits <= 10 { Pow2Mono(l.bits, 10); } else { Pow2Mono(11, l.bits); }
    }
  }

  lemma Pow2Ten()
    ensures Pow2(10) == 1024 && Pow2(11) == 2048
  {
    Pow2Values();
    ThreeMore(0, 6);
    assert Pow2(10) == 2 * Pow2(9);
  }

  // What clamp_timer_ttl returns: beyond LONGEST the sum wraps.
  function ClampWord(ttl: nat): nat { if ttl <= LONGEST then Clamp(ttl) else 0 }

  // What a command does when its ttl is clamped.
  function Clamped(c: Cmd): Cmd { if c.CmdStart? then CmdStart(c.id, ClampWord(c.ttl)) else c }

  function ClampedAll(cmds: seq<Cmd>): seq<Cmd>
  {
    seq(|cmds|, i requires 0 <= i < |cmds| => Clamped(cmds[i]))
  }

  // Every ttl is a 64-bit word.
  predicate Words64(cmds: seq<Cmd>) { forall i :: 0 <= i < |cmds| && cmds[i].CmdStart? ==> cmds[i].ttl < TWO64 }

  predicate Smalls(cmds: seq<Cmd>) { forall i :: 0 <= i < |cmds| && cmds[i].CmdStart? ==> cmds[i].ttl < SMALL }

  // l2c_start, l2c_stop, l2c_tick and l2c_advance
  method DoClamped(s: LawnStore.Store, c: Cmd) returns (o: Obs)
    requires s.Valid() && Lawful(s.View(), Clamped(c)) && (c.CmdStart? ==> c.ttl < TWO64)
    requires |s.lawn.bucket| < LawnStore.MANY
    modifies s, s.lawn, s.lawn.blades, s.nodes.Values
    ensures s.Valid() && s.View() == After(old(s.View()), Clamped(c)) && o == See(old(s.View()), Clamped(c))
    ensures Grew(old(s.lawn.bucket), s.lawn.bucket, Clamped(c))
    ensures s.lawn == old(s.lawn)
    ensures fresh(s.lawn.blades - old(s.lawn.blades)) && fresh(s.nodes.Values - old(s.nodes.Values))
  {
    hide LawnStore.Store.Valid, LawnStore.Store.View, Clamp, Lawful, After, See;
    if c.CmdStart? {
      var ttl := ClampTimerTtl(c.ttl);
      o := LawnDo(s, CmdStart(c.id, ttl));
    } else {
      o := LawnDo(s, c);
    }
  }

  // With ttls below 2^27 the table stays small.
  lemma StaysSmall<B>(before: map<nat, B>, after: map<nat, B>, c: Cmd)
    requires AllClamped(before.Keys) && (c.CmdStart? ==> c.ttl < SMALL) && Grew(before, after, Clamped(c))
    ensures AllClamped(after.Keys)
  {
    if c.CmdStart? {
      ClampIdempotent(c.ttl);
      ClampBelow(c.ttl);
    }
  }

  method DoSmall(s: LawnStore.Store, c: Cmd) returns (o: Obs)
    requires s.Valid() && Lawful(s.View(), Clamped(c)) && Small(s) && (c.CmdStart? ==> c.ttl < SMALL)
    modifies s, s.lawn, s.lawn.blades, s.nodes.Values
    ensures s.Valid() && s.View() == After(old(s.View()), Clamped(c)) && o == See(old(s.View()), Clamped(c))
    ensures Small(s)
    ensures s.lawn == old(s.lawn)
    ensures fresh(s.lawn.blades - old(s.lawn.blades)) && fresh(s.nodes.Values - old(s.nodes.Values))
  {
    hide LawnStore.Store.Valid, LawnStore.Store.View, AllClamped, Clamped, Lawful, After, See, Grew;
    TableStaysSmall(s);
    ghost var before := s.lawn.bucket;
    o := DoClamped(s, c);
    StaysSmall(before, s.lawn.bucket, c);
  }

  method NewClamped() returns (s: LawnStore.Store)
    ensures fresh(s) && fresh(s.lawn) && fresh(s.lawn.blades) && fresh(s.nodes.Values)
    ensures s.Valid() && s.View() == Bag(0, map[]) && Small(s)
  {
    s := new LawnStore.Store();
  }

  // In any run the store behaves like the bag with the clamped ttls.
  method RunClamped(cmds: seq<Cmd>) returns (s: LawnStore.Store, seen: seq<Obs>)
    requires LawfulRun(ClampedAll(cmds)) && Words64(cmds) && Short(cmds)
    ensures s.Valid() && s.View() == BagAt(ClampedAll(cmds), |cmds|) && seen == Trace(ClampedAll(cmds), |cmds|)
  {
    hide LawnStore.Store.Valid, LawnStore.Store.View, BagAt, Trace, LawfulRun, FewTtls, Short, Clamped;
    ghost var all := ClampedAll(cmds);
    RunEmpty(all);
    var l := NewLawn();
    seen := [];
    for i := 0 to |cmds|
      invariant fresh(l) && fresh(l.lawn) && fresh(l.lawn.blades) && fresh(l.nodes.Values)
      invariant l.Valid() && l.View() == BagAt(all, i) && FewTtls(l, i)
      invariant seen == Trace(all, i)
    {
      var o := StepClamped(l, cmds, i);
      seen := seen + [o];
    }
    s := l;
  }

  method StepClamped(s: LawnStore.Store, cmds: seq<Cmd>, i: nat) returns (o: Obs)
    requires LawfulRun(ClampedAll(cmds)) && Words64(cmds) && Short(cmds) && i < |cmds|
    requires s.Valid() && s.View() == BagAt(ClampedAll(cmds), i) && FewTtls(s, i)
    modifies s, s.lawn, s.lawn.blades, s.nodes.Values
    ensures s.Valid() && s.View() == BagAt(ClampedAll(cmds), i + 1) && FewTtls(s, i + 1)
    ensures Trace(ClampedAll(cmds), i + 1) == Trace(ClampedAll(cmds), i) + [o]
    ensures s.lawn == old(s.lawn)
    ensures fresh(s.lawn.blades - old(s.lawn.blades)) && fresh(s.nodes.Values - old(s.nodes.Values))
  {
    hide LawnStore.Store.Valid, LawnStore.Store.View, Lawful, After, See, BagAt, Trace, LawfulRun, Grew, Clamped;
    RunNext(ClampedAll(cmds), i);
    o := DoClamped(s, cmds[i]);
    OneMore(old(s.lawn.bucket), s.lawn.bucket, Clamped(cmds[i]));
  }

  // With ttls below 2^27, however long the run, it holds at most 457 distinct TTLs, and its table
  // never grows past 1024 slots.
  method RunSmall(cmds: seq<Cmd>) returns (s: LawnStore.Store, seen: seq<Obs>)
    requires LawfulRun(ClampedAll(cmds)) && Smalls(cmds)
    ensures s.Valid() && s.View() == BagAt(ClampedAll(cmds), |cmds|) && seen == Trace(ClampedAll(cmds), |cmds|)
    ensures |s.lawn.bucket| <= 457 && s.lawn.cap <= 1024
  {
    hide LawnStore.Store.Valid, LawnStore.Store.View, Lawful, After, See, Clamped, BagAt, Trace, LawfulRun, Small;
    ghost var all := ClampedAll(cmds);
    RunEmpty(all);
    var l := NewClamped();
    seen := [];
    for i := 0 to |cmds|
      invariant fresh(l) && fresh(l.lawn) && fresh(l.lawn.blades) && fresh(l.nodes.Values)
      invariant l.Valid() && l.View() == BagAt(all, i) && Small(l)
      invariant seen == Trace(all, i)
    {
      RunNext(all, i);
      assert all[i] == Clamped(cmds[i]);
      var o := DoSmall(l, cmds[i]);
      seen := seen + [o];
    }
    s := l;
    TableStaysSmall(s);
  }
}
