// src/benchmarks/c/impl/wheel_exact.c: 8 levels of 64 slots. A timer is placed where its remaining
// delta belongs and moved down only when its level's boundary is crossed; a slot of level 0 is
// fired without looking at deadlines.
module WheelExact {
  import opened Words
  import opened Granules
  import opened TimerBag
  import opened Slots

  const LEVELS: nat := 8

  // ---- The clock seen from a level ----

  // LVL_GRAN(l), 64^l
  function Span(l: nat): nat { Gran(2 * l) }

  // c >> (6 * l)
  function Units(c: nat, l: nat): nat { Down(c, 2 * l) }

  // c & (LVL_GRAN(l) - 1) is 0
  predicate Boundary(c: nat, l: nat) { Aligned(c, 2 * l) }

  lemma SpanNext(l: nat)
    ensures Up(64, 2 * l) == Span(l + 1)
  {
    UpEights(8, 2 * l);
    UpEights(1, 2 * l + 1);
  }

  lemma Spans()
    ensures Span(0) == 1 && Span(1) == 64 && Span(7) == 0x400_0000_0000 && Span(8) == 0x1_0000_0000_0000
  {
    UpEight(1);
    UpUp(1, 8, 8);
    UpEight(Up(1, 8));
    UpUp(1, 8, 6);
    assert Up(1, 2) == 64;
    var g := Up(1, 8);
    assert Up(g, 6) == 262144 * g by { assert Up(g, 3) == 512 * g; assert Up(g, 5) == 32768 * g; }
  }

  // The deltas a level holds lie between 1 and 64 units ahead; exactly on a boundary, below 64.
  lemma DeltaUnits(now: nat, e: nat, l: nat)
    requires now + Span(l) <= e < now + Span(l + 1)
    ensures Units(now, l) < Units(e, l) <= Units(now, l) + 64
    ensures Boundary(now, l) ==> Units(e, l) <= Units(now, l) + 63
  {
    SpanNext(l);
    UnitAhead(now, e, l);
    UnitsWithin(now, e, l);
  }

  // A whole unit ahead is a later unit.
  lemma UnitAhead(now: nat, e: nat, l: nat)
    requires now + Span(l) <= e
    ensures Units(now, l) < Units(e, l)
  {
    DownPlus(now, 1, 2 * l);
    DownMono(now + Span(l), e, 2 * l);
  }

  // Less than 64 spans ahead is at most 64 units on.
  lemma UnitsWithin(now: nat, e: nat, l: nat)
    requires now <= e < now + Up(64, 2 * l)
    ensures Units(e, l) <= Units(now, l) + 64
    ensures Boundary(now, l) ==> Units(e, l) <= Units(now, l) + 63
  {
    var k := 2 * l;
    DownPlus(now, 64, k);
    DownMono(e, now + Up(64, k), k);
    AlignedIs(now, k);
    DownIs(e, Down(now, k) + 64, k);
    UpSum(Down(now, k), 64, k);
  }

  // On the boundary at which a level's unit becomes the timer's, less than that unit remains.
  lemma CascadeDelta(now: nat, e: nat, l: nat)
    requires Boundary(now, l) && Units(e, l) == Units(now, l)
    ensures now <= e < now + Span(l)
  {
    var k := 2 * l;
    AlignedIs(now, k);
    DownIs(e, Units(now, l), k);
    DownIs(e, Units(now, l) + 1, k);
    UpSum(Units(now, l), 1, k);
  }

  // ---- Where a timer belongs ----

  // Slot i of level l.
  function SlotAt(l: nat, i: nat): (k: nat)
    requires i < 64
    ensures l < LEVELS ==> k < 512
  {
    64 * l + i
  }

  function LevelOf(k: nat): nat { k / 64 }

  lemma SlotParts(l: nat, i: nat)
    requires i < 64
    ensures LevelOf(SlotAt(l, i)) == l && Slot(SlotAt(l, i)) == i
  {
  }

  lemma SlotWhole(k: nat)
    ensures SlotAt(LevelOf(k), Slot(k)) == k
    ensures k < 512 ==> LevelOf(k) < LEVELS
  {
  }

  // What holds of a timer in slot k at clock now. On level 0 its deadline is less than 64 ticks away,
  // or was met less than 64 ticks ago when it was started with ttl 0; above, its unit is one of the
  // next 64. While the tick that reaches now is under way, late is 1 and the slot of now may still
  // hold a timer of 64 ticks ago.
  predicate Placed(e: nat, k: nat, now: nat, late: nat)
  {
    var l := LevelOf(k);
    && l < LEVELS
    && Slot(k) == Slot(Units(e, l))
    && if l == 0 then now < e + 64 + late && e < now + 64 else Units(now, l) < Units(e, l) <= Units(now, l) + 64
  }

  // Within a tick, while the levels from n on are still to be cascaded.
  predicate Pending(e: nat, k: nat, now: nat, n: nat)
  {
    var l := LevelOf(k);
    if l < n || !Boundary(now, l) then Placed(e, k, now, 1)
    else
      && l < LEVELS
      && Slot(k) == Slot(Units(e, l))
      && Units(now, l) <= Units(e, l) < Units(now, l) + 64
  }

  // The clock moves on.
  lemma PlacedTicks(e: nat, k: nat, now: nat)
    requires Placed(e, k, now, 0)
    ensures Pending(e, k, now + 1, 1)
  {
    hide Slot, LevelOf, Aligned, Down;
    DownTick(now, 2 * LevelOf(k));
  }

  // The level that place chooses for a delta.
  function LevelFor(delta: nat, l: nat): (r: nat)
    requires l < LEVELS
    ensures l <= r < LEVELS
    decreases LEVELS - l
  {
    if l < LEVELS - 1 && delta >= Span(l + 1) then LevelFor(delta, l + 1) else l
  }

  lemma {:induction false} LevelForIs(delta: nat, l: nat)
    requires l < LEVELS && (l > 0 ==> Span(l) <= delta)
    ensures var r := LevelFor(delta, l); (r > 0 ==> Span(r) <= delta) && (r < 7 ==> delta < Span(r + 1))
    decreases LEVELS - l
  {
    hide Span;
    if l < LEVELS - 1 && delta >= Span(l + 1) { LevelForIs(delta, l + 1); }
  }

  // The slot that place chooses.
  function SlotFor(e: nat, now: nat): (k: nat)
    ensures k < 512
  {
    var delta := if e > now then e - now else 0;
    var l := LevelFor(delta, 0);
    SlotAt(l, Slot(Units(e, l)))
  }

  // The wheel reaches as far as 64 units of its top level, counted from the unit of the clock:
  // (e >> 42) - (now >> 42) <= 64.
  predicate InReach(e: nat, now: nat) { Units(e, 7) <= Units(now, 7) + 64 }

  // A ttl below 2^48 is always within reach.
  lemma ShortInReach(e: nat, now: nat)
    requires now <= e < now + 0x1_0000_0000_0000
    ensures InReach(e, now)
  {
    Spans();
    SpanNext(7);
    UnitsWithin(now, e, 7);
  }

  // Within reach, place puts a timer where it belongs.
  lemma PlacePlaced(e: nat, now: nat)
    requires now <= e && InReach(e, now)
    ensures Placed(e, SlotFor(e, now), now, 0)
    ensures LevelOf(SlotFor(e, now)) == LevelFor(e - now, 0)
  {
    var l := LevelFor(e - now, 0);
    LevelForIs(e - now, 0);
    SlotParts(l, Slot(Units(e, l)));
    Spans();
    hide Slot, LevelOf, SlotAt, Aligned, Down, LevelFor, Span;
    if l > 0 {
      UnitAhead(now, e, l);
      if l < 7 { DeltaUnits(now, e, l); }
    }
  }

  lemma SpanMono(k: nat, l: nat)
    requires k <= l
    ensures Span(k) <= Span(l)
  {
    UpMonoLevel(1, 2 * k, 2 * l);
  }

  // Cascading moves a timer to a lower level, where it belongs.
  lemma CascadeLowers(e: nat, now: nat, l: nat)
    requires 0 < l < LEVELS && Boundary(now, l) && Units(e, l) == Units(now, l)
    ensures now <= e && Placed(e, SlotFor(e, now), now, 0)
    ensures LevelOf(SlotFor(e, now)) < l
  {
    hide Placed, SlotFor, LevelOf, Boundary, Units, Up, Span, InReach, LevelFor;
    CascadeDelta(now, e, l);
    SpanMono(l, LEVELS);
    Spans();
    ShortInReach(e, now);
    PlacePlaced(e, now);
    var r := LevelFor(e - now, 0);
    LevelForIs(e - now, 0);
    if r >= l { SpanMono(l, r); }
  }

  // The slot that level l drains at clock now.
  function Drained(now: nat, l: nat): (k: nat)
    ensures l < LEVELS ==> k < 512
  {
    SlotAt(l, Slot(Units(now, l)))
  }

  // The slot drained at a boundary holds the timers whose unit has come, and no others do so.
  lemma DrainedIs(e: nat, k: nat, now: nat, l: nat)
    requires l > 0 && Boundary(now, l) && Pending(e, k, now, l)
    ensures k == Drained(now, l) ==> Units(e, l) == Units(now, l)
    ensures k != Drained(now, l) ==> Pending(e, k, now, l + 1)
  {
    SlotWhole(k);
    SlotParts(l, Slot(Units(now, l)));
    SameSlot(Units(now, l), Units(e, l));
    hide Slot, LevelOf, SlotAt, Boundary, Units;
  }

  // At the first level whose boundary is not crossed nothing is left to do.
  lemma NoMoreBoundaries(e: nat, k: nat, now: nat, l: nat)
    requires (l >= LEVELS || !Boundary(now, l)) && Pending(e, k, now, l)
    ensures Placed(e, k, now, 1)
  {
    hide Slot, LevelOf, Units, Aligned;
    if l <= LevelOf(k) && Boundary(now, LevelOf(k)) {
      AlignedBelow(now, 2 * l, 2 * LevelOf(k));
    }
  }

  // Then slot 0 of the clock holds exactly the timers that are due, or were started with ttl 0 64
  // ticks ago.
  lemma DueIs(e: nat, k: nat, now: nat)
    requires Placed(e, k, now, 1)
    ensures k == SlotAt(0, Slot(now)) <==> e == now || e + 64 == now
    ensures k != SlotAt(0, Slot(now)) ==> Placed(e, k, now, 0)
  {
    SlotWhole(k);
    SlotParts(0, Slot(now));
    SameSlot(now, e);
    SameSlot(e, now);
    var l := LevelOf(k);
    assert Units(e, 0) == e;
    hide Slot, LevelOf, SlotAt, Down;
    if l > 0 && e <= now { DownMono(e, now, 2 * l); }
  }

  // ---- How far the wheel reaches ----

  // A timer that a top-level drain takes out goes back into the slot being drained exactly if
  // 2^48 ticks or more remain.
  lemma DrainReturns(e: nat, now: nat)
    requires Boundary(now, 7) && now <= e && Slot(Units(e, 7)) == Slot(Units(now, 7))
    ensures SlotFor(e, now) == Drained(now, 7) <==> e - now >= 0x1_0000_0000_0000
  {
    Spans();
    TopLevel(e - now);
    SlotParts(7, Slot(Units(now, 7)));
    hide Slot, LevelOf, SlotAt, Aligned, Down, LevelFor, Span;
    if e - now < 0x1_0000_0000_0000 {
      ShortInReach(e, now);
      PlacePlaced(e, now);
      if LevelFor(e - now, 0) == 7 {
        DeltaUnits(now, e, 7);
        SameSlot(Units(now, 7), Units(e, 7));
      }
    }
  }

  // The top level takes every delta from its span on.
  lemma TopLevel(delta: nat)
    ensures LevelFor(delta, 0) == 7 <==> delta >= Span(7)
  {
    var r := LevelFor(delta, 0);
    LevelForIs(delta, 0);
    hide Span, LevelFor;
    SpanMono(r, 7);
    if r < 7 { SpanMono(r + 1, 7); }
  }

  // The drain loop never ends at clock c: it is the first drain of the slot that place chose at now,
  // and place puts the timer back there.
  predicate StuckAt(e: nat, now: nat, c: nat)
  {
    && now < c && Boundary(c, 7) && Units(c, 7) <= Units(now, 7) + 64
    && Drained(c, 7) == SlotFor(e, now) == SlotFor(e, c)
  }

  // The first clock after now at which the top-level slot of e is drained.
  function FirstDrain(e: nat, now: nat): nat
    requires Units(now, 7) < Units(e, 7)
  {
    Up(Units(now, 7) + 1 + Slot(Units(e, 7) - (Units(now, 7) + 1)), 14)
  }

  lemma StuckBeyond(e: nat, now: nat)
    requires now <= e && !InReach(e, now)
    ensures StuckAt(e, now, FirstDrain(e, now))
  {
    var n, u := Units(now, 7), Units(e, 7);
    var m := n + 1 + Slot(u - (n + 1));
    var c := FirstDrain(e, now);
    FirstIs(n, u);
    AlignedUp(m, 14);
    DownIs(now, m, 14);
    DownIs(e, m + 64, 14);
    UpSum(m, 64, 14);
    SpanNext(7);
    Spans();
    if e < now + Span(8) { ShortInReach(e, now); }
    TopLevel(e - now);
    hide Slot, LevelOf, SlotAt, Aligned, Down, LevelFor, Span, Up;
    DrainReturns(e, c);
  }

  lemma FirstIs(n: nat, u: nat)
    requires u > n + 64
    ensures var m := n + 1 + Slot(u - (n + 1)); n < m <= n + 64 && m + 64 <= u && Slot(m) == Slot(u)
  {
  }

  lemma NotStuckWithin(e: nat, now: nat, c: nat)
    requires now <= e && InReach(e, now)
    ensures !StuckAt(e, now, c)
  {
    if StuckAt(e, now, c) {
      PlacePlaced(e, now);
      SlotParts(7, Slot(Units(c, 7)));
      AlignedIs(c, 14);
      DownIs(now, Units(c, 7), 14);
      SameSlot(Units(c, 7), Units(e, 7));
      SameSlot(Units(e, 7), Units(c, 7));
      CascadeLowers(e, c, 7);
    }
  }

  // A timer is within reach exactly if place puts it where it belongs, and exactly if no drain gets
  // stuck on it.
  lemma ReachExactly(e: nat, now: nat)
    requires now <= e
    ensures InReach(e, now) <==> Placed(e, SlotFor(e, now), now, 0)
    ensures InReach(e, now) <==> forall c :: !StuckAt(e, now, c)
  {
    hide StuckAt, SlotFor, Placed, InReach, FirstDrain;
    if InReach(e, now) {
      PlacePlaced(e, now);
      forall c ensures !StuckAt(e, now, c) { NotStuckWithin(e, now, c); }
    } else {
      Unplaced(e, now);
      StuckBeyond(e, now);
    }
  }

  lemma Unplaced(e: nat, now: nat)
    requires now <= e && !InReach(e, now)
    ensures Units(now, 7) < Units(e, 7) && !Placed(e, SlotFor(e, now), now, 0)
  {
    Spans();
    if e < now + Span(8) { ShortInReach(e, now); }
    TopLevel(e - now);
    SlotParts(7, Slot(Units(e, 7)));
    hide Slot, LevelOf, SlotAt, Aligned, Down, LevelFor, Span, Up;
  }

  // A ttl of 2^48 is within reach at clock 0; at clock 2^42 - 1 one more is not.
  lemma ReachExamples()
    ensures InReach(0x1_0000_0000_0000, 0)
    ensures !InReach(0x3FF_FFFF_FFFF + 0x1_0000_0000_0001, 0x3FF_FFFF_FFFF)
  {
    Spans();
    SpanNext(7);
    UpSum(64, 1, 14);
    AlignedUp(64, 14);
    AlignedUp(65, 14);
    DownZero(14);
    DownIs(0x3FF_FFFF_FFFF, 1, 14);
    hide Up, Down;
  }

  // ---- Whole wheels ----

  predicate AllPending(meta: map<nat, Meta>, now: nat, n: nat)
  {
    forall id :: id in meta ==> Pending(meta[id].expire, meta[id].slot, now, n)
  }

  // Between ticks every timer is where it belongs.
  predicate AllPlaced(meta: map<nat, Meta>, now: nat)
  {
    forall id :: id in meta ==> Placed(meta[id].expire, meta[id].slot, now, 0)
  }

  function Levels(meta: map<nat, Meta>): map<nat, nat> { map id | id in meta :: LevelOf(meta[id].slot) }

  ghost function Total(m: map<nat, nat>): nat
  {
    if m == map[] then 0 else var id :| id in m; m[id] + Total(m - {id})
  }

  lemma {:induction false} TotalWithout(m: map<nat, nat>, id: nat)
    requires id in m
    ensures Total(m) == m[id] + Total(m - {id})
    decreases m
  {
    var x :| x in m && Total(m) == m[x] + Total(m - {x});
    if x != id {
      TotalWithout(m - {x}, id);
      TotalWithout(m - {id}, x);
      assert m - {x} - {id} == m - {id} - {x};
    }
  }

  lemma TotalSet(m: map<nat, nat>, id: nat, v: nat)
    ensures id in m ==> Total(m[id := v]) + m[id] == Total(m) + v
    ensures id !in m ==> Total(m[id := v]) == Total(m) + v
  {
    TotalWithout(m[id := v], id);
    assert m[id := v] - {id} == m - {id};
    if id in m { TotalWithout(m, id); } else { assert m - {id} == m; }
  }

  lemma {:induction false} TotalLess(m: map<nat, nat>, ids: set<nat>)
    ensures Total(m - ids) <= Total(m)
    decreases |m|
  {
    if x :| x in m && x in ids {
      TotalWithout(m, x);
      TotalLess(m - {x}, ids);
      assert m - {x} - ids == m - ids;
    } else {
      assert m - ids == m;
    }
  }

  // One turn of the drain loop: the last id of the slot is taken out and placed again.
  function DrainSlots(slots: seq<seq<nat>>, meta: map<nat, Meta>, k: nat, now: nat): seq<seq<nat>>
    requires Indexed(slots, meta) && |slots| == 512 && k < 512 && slots[k] != []
  {
    var id := LastId(slots, meta, k);
    Push(RemoveAt(slots, k, |slots[k]| - 1), SlotFor(meta[id].expire, now), id)
  }

  function DrainMeta(slots: seq<seq<nat>>, meta: map<nat, Meta>, k: nat, now: nat): map<nat, Meta>
    requires Indexed(slots, meta) && |slots| == 512 && k < 512 && slots[k] != []
  {
    var id, pos := LastId(slots, meta, k), |slots[k]| - 1;
    var expire := meta[id].expire;
    PushMeta(RemoveAt(slots, k, pos), RemoveMeta(slots, meta, k, pos), SlotFor(expire, now), id, expire)
  }

  function LastId(slots: seq<seq<nat>>, meta: map<nat, Meta>, k: nat): (id: nat)
    requires Indexed(slots, meta) && k < |slots| && slots[k] != []
    ensures id in meta && meta[id].slot == k
  {
    assert At(slots, meta, k, |slots[k]| - 1);
    slots[k][|slots[k]| - 1]
  }

  // Only the timer's own slot changes, and the positions in the drained slot.
  lemma DrainShape(slots: seq<seq<nat>>, meta: map<nat, Meta>, k: nat, now: nat)
    requires Indexed(slots, meta) && |slots| == 512 && k < 512 && slots[k] != []
    ensures var id, s := LastId(slots, meta, k), DrainSlots(slots, meta, k, now);
            var m := DrainMeta(slots, meta, k, now);
      && Indexed(s, m) && m.Keys == meta.Keys && Deadlines(m) == Deadlines(meta)
      && m[id].expire == meta[id].expire && m[id].slot == SlotFor(meta[id].expire, now)
      && (forall x :: x in m && x != id ==> m[x].(pos := 0) == meta[x].(pos := 0))
      && (m[id].slot != k ==> |s[k]| == |slots[k]| - 1)
  {
    var id, pos := LastId(slots, meta, k), |slots[k]| - 1;
    var e := meta[id].expire;
    RemoveKeeps(slots, meta, k, pos);
    PushKeeps(RemoveAt(slots, k, pos), RemoveMeta(slots, meta, k, pos), SlotFor(e, now), id, e);
    assert Drop(Deadlines(meta), {id})[id := e] == Deadlines(meta);
    hide SlotFor, Indexed, Deadlines, Drop;
  }

  // A drained timer strictly loses levels and never returns to the slot.
  lemma DrainLowers(meta: map<nat, Meta>, id: nat, now: nat, l: nat)
    requires 0 < l < LEVELS && Boundary(now, l) && AllPending(meta, now, l)
    requires id in meta && meta[id].slot == Drained(now, l)
    ensures var k := SlotFor(meta[id].expire, now);
      LevelOf(k) < l == LevelOf(meta[id].slot) && k != Drained(now, l) && Pending(meta[id].expire, k, now, l)
  {
    var e := meta[id].expire;
    assert Pending(e, meta[id].slot, now, l);
    DrainedIs(e, meta[id].slot, now, l);
    SlotParts(l, Slot(Units(now, l)));
    hide SlotFor, Placed, Boundary, Units, Slot, SlotAt, LevelOf, AllPending;
    CascadeLowers(e, now, l);
  }

  lemma DrainStep(slots: seq<seq<nat>>, meta: map<nat, Meta>, now: nat, l: nat)
    requires Indexed(slots, meta) && |slots| == 512 && 0 < l < LEVELS && Boundary(now, l)
    requires AllPending(meta, now, l) && slots[Drained(now, l)] != []
    ensures var k := Drained(now, l); var s, m := DrainSlots(slots, meta, k, now), DrainMeta(slots, meta, k, now);
      && Indexed(s, m) && AllPending(m, now, l)
      && |m| == |meta| && Deadlines(m) == Deadlines(meta)
      && |s[k]| == |slots[k]| - 1
      && Total(Levels(m)) + 1 <= Total(Levels(meta))
  {
    var k := Drained(now, l);
    var id := LastId(slots, meta, k);
    DrainShape(slots, meta, k, now);
    DrainLowers(meta, id, now, l);
    var m := DrainMeta(slots, meta, k, now);
    hide Indexed, Deadlines, DrainMeta, DrainSlots, Pending, Boundary, SlotFor, LevelOf, Drained, Total;
    forall x | x in m ensures Pending(m[x].expire, m[x].slot, now, l) {
      if x != id { assert m[x].(pos := 0) == meta[x].(pos := 0); }
    }
    hide AllPending;
    LevelsChange(meta, m, id);
    assert |m| == |m.Keys| && |meta| == |meta.Keys|;
  }

  lemma LevelsChange(meta: map<nat, Meta>, m: map<nat, Meta>, id: nat)
    requires m.Keys == meta.Keys && id in m
    requires forall x :: x in m && x != id ==> m[x].(pos := 0) == meta[x].(pos := 0)
    ensures Total(Levels(m)) + LevelOf(meta[id].slot) == Total(Levels(meta)) + LevelOf(m[id].slot)
  {
    var lv := LevelOf(m[id].slot);
    hide LevelOf, Total;
    forall x | x in m && x != id ensures m[x].slot == meta[x].slot {
      assert m[x].(pos := 0) == meta[x].(pos := 0);
    }
    assert Levels(m) == Levels(meta)[id := lv];
    TotalSet(Levels(meta), id, lv);
  }

  // When the drained slot is empty, the level has been cascaded.
  lemma DrainEnds(slots: seq<seq<nat>>, meta: map<nat, Meta>, now: nat, l: nat)
    requires Indexed(slots, meta) && |slots| == 512 && 0 < l < LEVELS && Boundary(now, l)
    requires AllPending(meta, now, l) && slots[Drained(now, l)] == []
    ensures AllPending(meta, now, l + 1)
  {
    forall id | id in meta ensures Pending(meta[id].expire, meta[id].slot, now, l + 1) {
      assert Found(slots, meta, id);
      DrainedIs(meta[id].expire, meta[id].slot, now, l);
    }
  }

  lemma ClockMoves(meta: map<nat, Meta>, now: nat)
    requires AllPlaced(meta, now)
    ensures AllPending(meta, now + 1, 1)
  {
    hide Placed, Pending;
    forall id | id in meta ensures Pending(meta[id].expire, meta[id].slot, now + 1, 1) {
      PlacedTicks(meta[id].expire, meta[id].slot, now);
    }
  }

  // With all levels cascaded, firing slot 0 of the clock fires what is due, and what was started with
  // ttl 0 64 ticks ago.
  lemma TickFires(slots: seq<seq<nat>>, meta: map<nat, Meta>, now: nat, l: nat)
    requires Indexed(slots, meta) && |slots| == 512 && AllPending(meta, now + 1, l)
    requires l >= LEVELS || !Boundary(now + 1, l)
    ensures var k := SlotAt(0, Slot(now + 1)); var m := meta - Ids(slots[k]);
      && Ids(slots[k]) == FiredLate(Bag(now, Deadlines(meta)), 64)
      && AllPlaced(m, now + 1)
  {
    var k := SlotAt(0, Slot(now + 1));
    ClearKeeps(slots, meta, k);
    hide Placed, Pending, Boundary, SlotAt, Slot, Indexed, Drop;
    forall id | id in meta
      ensures meta[id].slot != k ==> Placed(meta[id].expire, meta[id].slot, now + 1, 0)
      ensures meta[id].slot == k <==> meta[id].expire == now + 1 || meta[id].expire + 64 == now + 1
    {
      NoMoreBoundaries(meta[id].expire, meta[id].slot, now + 1, l);
      DueIs(meta[id].expire, meta[id].slot, now + 1);
    }
  }

  lemma StartKeeps(slots: seq<seq<nat>>, meta: map<nat, Meta>, now: nat, id: nat, e: nat)
    requires Indexed(slots, meta) && |slots| == 512 && AllPlaced(meta, now)
    requires id !in Deadlines(meta) && now <= e && InReach(e, now)
    ensures var k := SlotFor(e, now); var m := PushMeta(slots, meta, k, id, e);
      && Indexed(Push(slots, k, id), m) && AllPlaced(m, now)
      && |m| == |meta| + 1 && Total(Levels(m)) <= Total(Levels(meta)) + 7
      && Deadlines(m) == Deadlines(meta)[id := e]
  {
    DeadlinesHas(meta, id);
    var k := SlotFor(e, now);
    var m := PushMeta(slots, meta, k, id, e);
    PushKeeps(slots, meta, k, id, e);
    assert m.Keys == meta.Keys + {id};
    assert |m| == |m.Keys| && |meta| == |meta.Keys|;
    var x := m[id];
    assert m == meta[id := x] && x.slot == k && x.expire == e;
    hide *;
    NewPlaced(meta, now, id, x);
    NewTotal(meta, id, x);
  }

  lemma NewPlaced(meta: map<nat, Meta>, now: nat, id: nat, x: Meta)
    requires AllPlaced(meta, now) && now <= x.expire && InReach(x.expire, now) && x.slot == SlotFor(x.expire, now)
    ensures AllPlaced(meta[id := x], now)
  {
    PlacePlaced(x.expire, now);
    hide Placed, SlotFor, LevelOf;
  }

  lemma NewTotal(meta: map<nat, Meta>, id: nat, x: Meta)
    requires id !in meta && x.slot < 512
    ensures Total(Levels(meta[id := x])) <= Total(Levels(meta)) + 7
  {
    SlotWhole(x.slot);
    hide LevelOf, Total;
    assert Levels(meta[id := x]) == Levels(meta)[id := LevelOf(x.slot)];
    TotalSet(Levels(meta), id, LevelOf(x.slot));
  }

  lemma StopKeeps(slots: seq<seq<nat>>, meta: map<nat, Meta>, now: nat, id: nat)
    requires Indexed(slots, meta) && AllPlaced(meta, now) && id in meta
    ensures meta[id].slot < |slots| && meta[id].pos < |slots[meta[id].slot]|
    ensures var k, p := meta[id].slot, meta[id].pos; var m := RemoveMeta(slots, meta, k, p);
      && Indexed(RemoveAt(slots, k, p), m) && AllPlaced(m, now)
      && |m| == |meta| - 1 && Total(Levels(m)) <= Total(Levels(meta))
      && Deadlines(m) == Drop(Deadlines(meta), {id})
  {
    assert Found(slots, meta, id);
    var k, p := meta[id].slot, meta[id].pos;
    var m := RemoveMeta(slots, meta, k, p);
    RemoveKeeps(slots, meta, k, p);
    hide Placed, LevelOf, Indexed, RemoveMeta, RemoveAt, Deadlines, Drop, Total;
    assert |m| == |m.Keys| && |meta| == |meta.Keys|;
    forall x | x in m ensures m[x].slot == meta[x].slot && m[x].expire == meta[x].expire {
      assert m[x].(pos := 0) == meta[x].(pos := 0);
    }
    assert Levels(m) == Levels(meta) - {id};
    TotalLess(Levels(meta), {id});
  }

  lemma FireKeeps(slots: seq<seq<nat>>, meta: map<nat, Meta>, now: nat, l: nat)
    requires Indexed(slots, meta) && |slots| == 512 && AllPending(meta, now + 1, l)
    requires l >= LEVELS || !Boundary(now + 1, l)
    ensures var b := Bag(now, Deadlines(meta)); var k := SlotAt(0, Slot(now + 1)); var m := meta - Ids(slots[k]);
      && Indexed(Clear(slots, k), m) && AllPlaced(m, now + 1)
      && |m| == |meta| - |slots[k]| && |slots[k]| == |FiredLate(b, 64)|
      && Total(Levels(m)) <= Total(Levels(meta))
      && Bag(now + 1, Deadlines(m)) == LateTick(b, 64)
  {
    var k := SlotAt(0, Slot(now + 1));
    hide Indexed, AllPending, AllPlaced, Deadlines, Total, Boundary, FiredLate, Drop, Ids, Clear, SlotAt, Slot, LevelOf;
    TickFires(slots, meta, now, l);
    ClearKeeps(slots, meta, k);
    SlotSize(slots, meta, k);
    assert Levels(meta - Ids(slots[k])) == Levels(meta) - Ids(slots[k]);
    TotalLess(Levels(meta), Ids(slots[k]));
  }

  // The metadata is the inverse of the slots, live its size, and every move has cost a level.
  ghost predicate TableOk(slots: seq<seq<nat>>, meta: map<nat, Meta>, live: nat, starts: nat, moves: nat)
  {
    && Indexed(slots, meta)
    && live == |meta|
    && moves + Total(Levels(meta)) <= 7 * starts
  }

  lemma DrainTable(slots: seq<seq<nat>>, meta: map<nat, Meta>, live: nat, starts: nat, moves: nat, now: nat, l: nat)
    requires TableOk(slots, meta, live, starts, moves) && |slots| == 512 && 0 < l < LEVELS && Boundary(now, l)
    requires AllPending(meta, now, l) && slots[Drained(now, l)] != []
    ensures var k := Drained(now, l); var s, m := DrainSlots(slots, meta, k, now), DrainMeta(slots, meta, k, now);
      && TableOk(s, m, live, starts, moves + 1) && AllPending(m, now, l)
      && Deadlines(m) == Deadlines(meta) && |s[k]| == |slots[k]| - 1
  {
    hide Indexed, AllPending, Deadlines, Levels, Total, Boundary, Drained, DrainSlots, DrainMeta;
    DrainStep(slots, meta, now, l);
  }

  class ExactWheel {
    var now: nat
    var slots: array<seq<nat>>
    var meta: map<nat, Meta>
    var live: nat
    // How many timers were started and how often one was moved by a cascade.
    ghost var starts: nat
    ghost var moves: nat

    ghost predicate Table()
      reads this, slots
    {
      slots.Length == 512 && TableOk(slots[..], meta, live, starts, moves)
    }

    // Between operations; moves <= 7 * starts follows.
    ghost predicate Valid()
      reads this, slots
    {
      Table() && AllPlaced(meta, now)
    }

    ghost function View(): Bag
      reads `now, `meta
    {
      Bag(now, Deadlines(meta))
    }

    // In any run, cascades have moved timers at most 7 times as often as timers were started.
    lemma FewMoves()
      requires Valid()
      ensures moves <= 7 * starts
    {
      hide AllPlaced, Indexed;
    }

    constructor ()
      ensures Valid() && fresh(slots) && View() == Bag(0, map[]) && starts == moves == 0
    {
      slots := new seq<nat>[512](_ => []);
      now, meta, live, starts, moves := 0, map[], 0, 0, 0;
      new;
      assert Levels(meta) == map[];
    }

    // The level loop of place.
    method FindLevel(delta: nat) returns (level: nat)
      ensures level == LevelFor(delta, 0)
    {
      level := 0;
      while level < LEVELS - 1 && delta >= Span(level + 1)
        invariant level < LEVELS && LevelFor(delta, level) == LevelFor(delta, 0)
        decreases LEVELS - level
      {
        level := level + 1;
      }
    }

    // place
    method Place(id: nat, expire: nat)
      requires slots.Length == 512
      modifies `meta, slots
      ensures slots[..] == Push(old(slots[..]), SlotFor(expire, now), id)
      ensures meta == PushMeta(old(slots[..]), old(meta), SlotFor(expire, now), id, expire)
    {
      var level := FindLevel(if expire > now then expire - now else 0);
      var idx := Slot(Units(expire, level));
      meta := SlotPush(slots, meta, SlotAt(level, idx), id, expire);
    }

    // we_start
    method Start(id: nat, ttl: nat)
      requires Valid() && id !in View().due && InReach(now + ttl, now) && now + ttl < TWO64
      modifies this, slots
      ensures Valid() && View() == TimerBag.Start(old(View()), id, ttl) && slots == old(slots)
      ensures starts == old(starts) + 1 && moves == old(moves)
    {
      hide Indexed, Deadlines, AllPlaced, SlotFor, Levels, Total, Push, PushMeta;
      StartKeeps(slots[..], meta, now, id, now + ttl);
      Place(id, now + ttl);
      live := live + 1;
      starts := starts + 1;
    }

    // we_stop
    method Stop(id: nat) returns (found: bool)
      requires Valid()
      modifies `meta, `live, slots
      ensures Valid() && View() == TimerBag.Stop(old(View()), id) && slots == old(slots)
      ensures found <==> id in old(View()).due
      ensures starts == old(starts) && moves == old(moves)
    {
      hide Indexed, Deadlines, AllPlaced, Levels, Total, RemoveAt, RemoveMeta;
      DeadlinesHas(meta, id);
      found := id in meta;
      if found {
        hide Drop;
        StopKeeps(slots[..], meta, now, id);
        meta := SlotRemoveAt(slots, meta, meta[id].slot, meta[id].pos);
        live := live - 1;
      } else {
        assert Drop(View().due, {id}) == View().due;
      }
    }

    // The drain loop of we_tick for one level.
    method Drain(l: nat)
      requires Table() && 0 < l < LEVELS && Boundary(now, l) && AllPending(meta, now, l)
      modifies `meta, `moves, slots
      ensures Table() && AllPending(meta, now, l + 1)
      ensures Deadlines(meta) == old(Deadlines(meta))
      ensures moves == old(moves) + old(|slots[Drained(now, l)]|)
    {
      hide Indexed, AllPending, Deadlines, Levels, Total, Boundary, Drained;
      var k := SlotAt(l, Slot(Units(now, l)));
      assert k == Drained(now, l) by { DrainedSlot(l); }
      while |slots[k]| > 0
        invariant Table() && AllPending(meta, now, l)
        invariant Deadlines(meta) == old(Deadlines(meta)) && moves + |slots[k]| == old(moves) + old(|slots[k]|)
        decreases |slots[k]|
      {
        DrainOne(k, l);
      }
      DrainEnds(slots[..], meta, now, l);
    }

    lemma DrainedSlot(l: nat)
      ensures SlotAt(l, Slot(Units(now, l))) == Drained(now, l)
    {
    }

    method DrainOne(k: nat, l: nat)
      requires Table() && 0 < l < LEVELS && Boundary(now, l) && AllPending(meta, now, l)
      requires k == Drained(now, l) && slots[k] != []
      modifies `meta, `moves, slots
      ensures Table() && AllPending(meta, now, l) && Deadlines(meta) == old(Deadlines(meta))
      ensures |slots[k]| == old(|slots[k]|) - 1 && moves == old(moves) + 1
    {
      hide TableOk, AllPending, Deadlines, Boundary, Drained, DrainSlots, DrainMeta, Indexed;
      DrainTable(slots[..], meta, live, starts, moves, now, l);
      TableIndexed();
      MoveLast(k);
      moves := moves + 1;
    }

    lemma TableIndexed()
      requires Table()
      ensures Indexed(slots[..], meta)
    {
    }

    // The last id of the slot is taken out and placed again.
    method MoveLast(k: nat)
      requires slots.Length == 512 && Indexed(slots[..], meta) && k < 512 && slots[k] != []
      modifies `meta, slots
      ensures slots[..] == DrainSlots(old(slots[..]), old(meta), k, now)
      ensures meta == DrainMeta(old(slots[..]), old(meta), k, now)
    {
      var id := slots[k][|slots[k]| - 1];
      assert id == LastId(slots[..], meta, k);
      var expire := meta[id].expire;
      hide Indexed, SlotFor, RemoveAt, RemoveMeta, Push, PushMeta;
      meta := SlotRemoveAt(slots, meta, k, |slots[k]| - 1);
      Place(id, expire);
    }

    // The cascade loop of we_tick: every level whose boundary was just crossed, from below.
    method Cascade() returns (ghost l: nat)
      requires Table() && AllPending(meta, now, 1)
      modifies `meta, `moves, slots
      ensures Table() && Deadlines(meta) == old(Deadlines(meta)) && moves >= old(moves)
      ensures (l >= LEVELS || !Boundary(now, l)) && AllPending(meta, now, l)
    {
      hide Indexed, AllPending, Deadlines, Levels, Total, Boundary;
      var lvl: nat := 1;
      while lvl < LEVELS && Boundary(now, lvl)
        invariant 0 < lvl && Table() && AllPending(meta, now, lvl)
        invariant Deadlines(meta) == old(Deadlines(meta)) && moves >= old(moves)
      {
        Drain(lvl);
        lvl := lvl + 1;
      }
      l := lvl;
    }

    // we_tick: what is due is fired, and what was started with ttl 0 64 ticks ago.
    method Tick() returns (fired: nat)
      requires Valid()
      modifies this, slots
      ensures Valid() && View() == LateTick(old(View()), 64) && slots == old(slots) && now == old(now) + 1
      ensures fired == |FiredLate(old(View()), 64)|
      ensures starts == old(starts) && moves >= old(moves)
    {
      hide Indexed, AllPending, AllPlaced, Deadlines, Levels, Total, Boundary, FiredLate, LateTick;
      ClockMoves(meta, now);
      now := now + 1;
      ghost var l := Cascade();
      fired := Fire(l);
    }

    // Its end: slot 0 of the clock is fired as it stands.
    method Fire(ghost l: nat) returns (fired: nat)
      requires Table() && now > 0 && AllPending(meta, now, l) && (l >= LEVELS || !Boundary(now, l))
      modifies `meta, `live, slots
      ensures Valid() && View() == LateTick(Bag(now - 1, old(Deadlines(meta))), 64)
      ensures fired == |FiredLate(Bag(now - 1, old(Deadlines(meta))), 64)|
    {
      hide Indexed, AllPending, AllPlaced, Deadlines, Levels, Total, Boundary, FiredLate, LateTick, Ids, Clear,
           SlotAt, Slot;
      FireKeeps(slots[..], meta, now - 1, l);
      meta, fired := SlotFire(slots, meta, SlotAt(0, Slot(now)));
      live := live - fired;
    }

    // we_size
    method Size() returns (n: nat)
      requires Valid()
      ensures n == |View().due|
    {
      assert View().due.Keys == meta.Keys;
      assert |View().due| == |View().due.Keys| && |meta| == |meta.Keys|;
      n := live;
    }

    // we_advance: a jump is done tick by tick.
    method Advance(target: nat)
      requires Valid() && now <= target
      modifies this, slots
      ensures Valid() && View() == LateTicks(old(View()), 64, target - old(now)) && slots == old(slots)
      ensures starts == old(starts) && moves >= old(moves)
    {
      hide Valid, View, LateTick;
      ghost var b, start := View(), now;
      while now < target
        invariant Valid() && start <= now <= target && slots == old(slots)
        invariant View() == LateTicks(b, 64, now - start) && starts == old(starts) && moves >= old(moves)
      {
        var fired := Tick();
      }
    }
  }
}
