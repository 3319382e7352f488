// What every timer store of the repository is for: a clock and a map from timer to deadline.
// A tick moves the clock by one and removes exactly the timers whose deadline it has reached.
module TimerBag {
  datatype Bag = Bag(now: nat, due: map<nat, nat>)

  function Start(b: Bag, id: nat, ttl: nat): Bag { b.(due := b.due[id := b.now + ttl]) }

  function Stop(b: Bag, id: nat): Bag { b.(due := Drop(b.due, {id})) }

  // The timers due at a clock.
  function DueBy(b: Bag, at: nat): set<nat> { set id | id in b.due && b.due[id] <= at }

  function AdvanceTo(b: Bag, at: nat): Bag { Bag(at, Drop(b.due, DueBy(b, at))) }

  // The timers a tick fires.
  function Fired(b: Bag): set<nat> { DueBy(b, b.now + 1) }

  function Tick(b: Bag): Bag { AdvanceTo(b, b.now + 1) }

  // n ticks
  function AfterTicks(b: Bag, n: nat): Bag { if n == 0 then b else Tick(AfterTicks(b, n - 1)) }

  function Drop(m: map<nat, nat>, ids: set<nat>): map<nat, nat> { map id | id in m && id !in ids :: m[id] }

  // Every deadline is still to come.
  predicate Ahead(b: Bag) { forall id :: id in b.due ==> b.now < b.due[id] }

  // Where every deadline is still to come, a tick fires exactly the deadlines it reaches.
  lemma FiredExactly(b: Bag, id: nat)
    requires Ahead(b)
    ensures id in Fired(b) <==> id in b.due && b.due[id] == b.now + 1
  {
  }

  // A jump of the clock does what ticking up to it does.
  lemma {:induction false} AdvanceIsTicks(b: Bag, n: nat)
    requires Ahead(b)
    ensures AfterTicks(b, n) == AdvanceTo(b, b.now + n)
  {
    if n == 0 {
      assert DueBy(b, b.now) == {};
    } else {
      AdvanceIsTicks(b, n - 1);
      AdvanceTwice(b, b.now + n - 1, b.now + n);
    }
  }

  lemma AdvanceTwice(b: Bag, c: nat, d: nat)
    requires c <= d
    ensures AdvanceTo(AdvanceTo(b, c), d) == AdvanceTo(b, d)
  {
    assert AdvanceTo(AdvanceTo(b, c), d).due == AdvanceTo(b, d).due;
  }

  lemma AdvanceIdle(b: Bag, at: nat)
    requires forall id :: id in b.due ==> at < b.due[id]
    ensures AdvanceTo(b, at) == b.(now := at)
  {
    assert Drop(b.due, DueBy(b, at)) == b.due;
  }

  // ---- Stores that fire a slot without reading deadlines ----

  // Their tick fires what falls due on it, and what was started with ttl 0 one turn of the slots ago.
  function FiredLate(b: Bag, turn: nat): set<nat>
  {
    set id | id in b.due && (b.due[id] == b.now + 1 || b.due[id] + turn == b.now + 1)
  }

  function LateTick(b: Bag, turn: nat): Bag { Bag(b.now + 1, Drop(b.due, FiredLate(b, turn))) }

  function LateTicks(b: Bag, turn: nat, n: nat): Bag
  {
    if n == 0 then b else LateTick(LateTicks(b, turn, n - 1), turn)
  }

  // That is the bag's tick if every deadline is ahead.
  lemma LateIsTick(b: Bag, turn: nat)
    requires Ahead(b)
    ensures FiredLate(b, turn) == Fired(b) && LateTick(b, turn) == Tick(b)
  {
  }

  lemma {:induction false} LateIsAdvance(b: Bag, turn: nat, n: nat)
    requires Ahead(b)
    ensures Ahead(LateTicks(b, turn, n)) && LateTicks(b, turn, n) == AdvanceTo(b, b.now + n)
  {
    AdvanceIsTicks(b, n);
    if n > 0 {
      LateIsAdvance(b, turn, n - 1);
      AdvanceIsTicks(b, n - 1);
      LateIsTick(LateTicks(b, turn, n - 1), turn);
    }
  }

  // When such a store fires a timer: on its deadline if that is ahead, and otherwise, which is to say
  // for ttl 0, a whole turn late.
  function FiresAt(b: Bag, turn: nat, id: nat): nat
    requires id in b.due
  {
    if b.due[id] > b.now then b.due[id] else b.due[id] + turn
  }

  lemma {:induction false} FiresThen(b: Bag, turn: nat, id: nat, n: nat)
    requires id in b.due && b.now < FiresAt(b, turn, id) && turn > 0
    ensures var c := LateTicks(b, turn, n);
      && c.now == b.now + n
      && (id in c.due <==> c.now < FiresAt(b, turn, id))
      && (id in c.due ==> c.due[id] == b.due[id])
  {
    if n > 0 { FiresThen(b, turn, id, n - 1); }
  }

  lemma DropNone(m: map<nat, nat>, id: nat)
    requires id !in m
    ensures Drop(m, {id}) == m
  {
  }

  lemma DropEmpty(m: map<nat, nat>)
    ensures Drop(m, {}) == m
  {
  }

  lemma DropTwice(m: map<nat, nat>, ids: set<nat>, id: nat)
    ensures Drop(Drop(m, ids), {id}) == Drop(m, ids + {id})
  {
  }

  lemma DropSize(m: map<nat, nat>, ids: set<nat>)
    requires ids <= m.Keys
    ensures |Drop(m, ids)| == |m| - |ids|
  {
    var d := Drop(m, ids);
    assert d.Keys == m.Keys - ids;
    assert |m.Keys| == |m.Keys - ids| + |ids| by { assert m.Keys == (m.Keys - ids) + ids; }
    assert |d| == |d.Keys| && |m| == |m.Keys|;
  }

  lemma DueSize(b: Bag, at: nat)
    ensures |AdvanceTo(b, at).due| == |b.due| - |DueBy(b, at)|
  {
    DropSize(b.due, DueBy(b, at));
  }
}
