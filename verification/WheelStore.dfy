// src/benchmarks/c/impl/wahern.c: the tickless wheel with its timers known by id. A tick moves the
// clock and hands out what has expired; every timer is one-shot and relative.
module WheelStore {
  import opened Words
  import opened TimerBag
  import opened TickWheel

  class Store {
    const wheel: Timeouts
    var timers: map<nat, Timeout>
    var now: nat
    var live: nat

    // The wheel's timers are the ones in the table, under the id they carry.
    ghost predicate Known()
      reads this, wheel`members, timers.Values
    {
      && (forall id :: id in timers ==> timers[id] in wheel.members && timers[id].arg == id)
      && (forall id :: id in timers ==> !timers[id].periodic && !timers[id].absolute)
      && (forall t :: t in wheel.members ==> t.arg in timers && timers[t.arg] == t)
    }

    ghost predicate Table()
      reads this, wheel, wheel.wheel, wheel.pending, wheel.members, timers.Values
    {
      wheel.Valid() && Known() && wheel.curtime == now && live == |timers|
    }

    // A timer is on the expired list exactly when the clock has reached it.
    ghost predicate Sorted()
      reads this, wheel`members, wheel`curtime, timers.Values
    {
      forall id :: id in timers ==> (timers[id].pending == OnExpired <==> timers[id].expires <= now)
    }

    ghost predicate Valid()
      reads this, wheel, wheel.wheel, wheel.pending, wheel.members, timers.Values
    {
      Table() && Sorted()
    }

    ghost function View(): Bag
      reads this, timers.Values
    {
      Bag(now, map id | id in timers :: timers[id].expires)
    }

    constructor ()
      ensures Valid() && fresh(wheel) && fresh(wheel.wheel) && fresh(wheel.pending)
      ensures timers == map[] && View() == Bag(0, map[])
    {
      wheel := new Timeouts();
      timers, now, live := map[], 0, 0;
    }

    // wahern_start
    method Start(id: nat, ttl: nat)
      requires Valid() && id !in View().due && now + ttl < TWO64
      modifies this, wheel, wheel.wheel, wheel.pending
      ensures Valid() && View() == TimerBag.Start(old(View()), id, ttl)
      ensures fresh(timers.Values - old(timers.Values))
    {
      hide Timeouts.Valid;
      var to := new Timeout(false, false, id);
      ghost var b := View();
      AddOne(to, ttl);
      assert View() == b;
      Enter(to);
    }

    method AddOne(to: Timeout, ttl: nat)
      requires wheel.Valid() && to !in wheel.members && to.pending == Nowhere && !to.periodic && !to.absolute
      requires wheel.curtime + ttl < TWO64
      modifies wheel, wheel.wheel, wheel.pending, to`pending, to`timeouts, to`expires, to`interval
      ensures wheel.Valid() && wheel.members == old(wheel.members) + {to} && wheel.curtime == old(wheel.curtime)
      ensures to.expires == wheel.curtime + ttl && (to.pending == OnExpired <==> to.expires <= wheel.curtime)
    {
      hide Timeouts.Valid;
      wheel.Add(to, ttl);
    }

    // The new timer's line in the table.
    method Enter(to: Timeout)
      requires wheel.Valid() && to.arg !in timers && !to.periodic && !to.absolute && live == |timers|
      requires wheel.curtime == now && Sorted() && (to.pending == OnExpired <==> to.expires <= now)
      requires to in wheel.members
      requires forall t :: t in wheel.members && t != to ==> t.arg in timers && timers[t.arg] == t
      requires forall id :: id in timers ==> timers[id] in wheel.members && timers[id] != to && timers[id].arg == id
      requires forall id :: id in timers ==> !timers[id].periodic && !timers[id].absolute
      modifies `timers, `live
      ensures Valid() && timers == old(timers)[to.arg := to]
      ensures View() == Bag(now, old(View()).due[to.arg := to.expires])
    {
      hide Timeouts.Valid, View;
      ghost var was := timers;
      ghost var due := View().due;
      DuesAre();
      timers := timers[to.arg := to];
      live := live + 1;
      DuesGain(was, due, to);
    }

    lemma DuesAre()
      ensures View() == Bag(now, map id | id in timers :: timers[id].expires)
    {
    }

    lemma DuesGain(was: map<nat, Timeout>, due: map<nat, nat>, to: Timeout)
      requires timers == was[to.arg := to] && due == map id | id in was :: was[id].expires
      ensures View() == Bag(now, due[to.arg := to.expires])
    {
    }

    // wahern_stop
    method Stop(id: nat) returns (found: bool)
      requires Valid()
      modifies this, wheel, wheel.wheel, wheel.pending, timers.Values
      ensures Valid() && View() == TimerBag.Stop(old(View()), id)
      ensures found <==> id in old(View()).due
      ensures timers.Values <= old(timers.Values)
    {
      hide Timeouts.Valid, Drop;
      found := id in timers;
      if found {
        ghost var b := View();
        wheel.Del(timers[id]);
        assert View().due == b.due;
        Leave(id);
      } else {
        DropNone(View().due, id);
      }
    }

    // An id's line in the table is cleared.
    method Leave(id: nat)
      requires wheel.Valid() && id in timers && live == |timers| && wheel.curtime == now
      requires forall x :: x in timers && x != id ==> (timers[x].pending == OnExpired <==> timers[x].expires <= now)
      requires forall t :: t in wheel.members ==> t.arg in timers && timers[t.arg] == t && t.arg != id
      requires forall x :: x in timers ==> (x == id || timers[x] in wheel.members) && timers[x].arg == x
      requires forall x :: x in timers ==> !timers[x].periodic && !timers[x].absolute
      modifies `timers, `live
      ensures Valid() && timers == old(timers) - {id} && View() == TimerBag.Stop(old(View()), id)
    {
      hide Timeouts.Valid;
      ghost var was := View().due;
      timers := timers - {id};
      live := live - 1;
      assert View().due == Drop(was, {id});
    }

    // timeouts_update at the start of a tick
    method Update(now: nat)
      requires Valid() && this.now <= now < TWO64
      modifies `now, wheel, wheel.wheel, wheel.pending, wheel.members
      ensures Table() && Sorted() && View().due == old(View()).due && this.now == now && timers == old(timers)
    {
      hide Timeouts.Valid;
      ghost var was := View().due;
      this.now := now;
      wheel.Update(now);
      assert View().due == was;
    }

    // One turn of the drain loop.
    method FireOne() returns (to: Timeout)
      requires Table() && Sorted() && wheel.expired != []
      modifies `timers, `live, wheel, wheel.wheel, wheel.pending, timers.Values
      ensures Table() && Sorted() && View() == TimerBag.Stop(old(View()), to.arg)
      ensures to.arg in old(View()).due && old(View()).due[to.arg] <= now
      ensures timers == old(timers) - {to.arg} && |wheel.expired| < old(|wheel.expired|)
    {
      ExpiredKnown();
      hide Timeouts.Valid;
      FirstExpired(wheel);
      ghost var b := View();
      to := GetOne();
      assert View().due == b.due;
      Leave(to.arg);
    }

    method GetOne() returns (to: Timeout)
      requires wheel.Valid() && wheel.expired != [] && !wheel.expired[0].periodic
      modifies wheel, wheel.wheel, wheel.pending, wheel.expired`pending, wheel.expired`timeouts, wheel.expired`expires
      ensures wheel.Valid() && to == old(wheel.expired[0]) && to in old(wheel.members)
      ensures wheel.members == old(wheel.members) - {to} && wheel.curtime == old(wheel.curtime)
      ensures |wheel.expired| < old(|wheel.expired|)
      ensures forall t :: t in old(wheel.members) ==> t.expires == old(t.expires)
      ensures forall t :: t in wheel.members ==> t.pending == old(t.pending)
    {
      hide Timeouts.Valid;
      to := wheel.Get();
    }

    lemma ExpiredKnown()
      requires Table()
      ensures forall t :: t in wheel.expired ==> t in timers.Values
    {
      forall t | t in wheel.expired ensures t in timers.Values {
        assert t in wheel.members && timers[t.arg] == t;
      }
    }

    // The drain loop: while ((to = timeouts_get(T)))
    method DrainAll(ghost b: Bag) returns (fired: nat)
      requires Table() && Sorted() && View().due == b.due
      modifies `timers, `live, wheel, wheel.wheel, wheel.pending, timers.Values
      ensures Valid() && wheel.expired == [] && View() == AdvanceTo(b, now) && fired == |DueBy(b, now)|
      ensures timers.Values <= old(timers.Values)
    {
      hide Table, Sorted, View;
      ghost var gone: set<nat> := {};
      fired := 0;
      DropEmpty(b.due);
      while wheel.expired != []
        invariant Table() && Sorted() && timers.Values <= old(timers.Values)
        invariant View().due == Drop(b.due, gone) && gone <= DueBy(b, now) && fired == |gone|
        decreases |wheel.expired|
      {
        var to := FireOne();
        DropTwice(b.due, gone, to.arg);
        gone := gone + {to.arg};
        fired := fired + 1;
      }
      NoneDue();
      forall id | id in DueBy(b, now) ensures id in gone {
        assert id in gone || id in View().due;
      }
      assert gone == DueBy(b, now);
      ViewNow();
    }

    lemma NoneDue()
      requires Table() && Sorted() && wheel.expired == []
      ensures forall id :: id in View().due ==> View().due[id] > now
    {
      forall id | id in timers ensures timers[id].expires > now { assert wheel.Linked(timers[id]); }
    }

    // wahern_tick
    method Tick() returns (fired: nat)
      requires Valid() && now + 1 < TWO64
      modifies this, wheel, wheel.wheel, wheel.pending, wheel.members, timers.Values
      ensures Valid() && View() == TimerBag.Tick(old(View())) && fired == |Fired(old(View()))|
      ensures timers.Values <= old(timers.Values)
    {
      hide Table, Sorted, View;
      ghost var b := View();
      assert b.now == now by { ViewNow(); }
      Update(now + 1);
      fired := DrainAll(b);
    }

    lemma ViewNow()
      ensures View().now == now
    {
    }

    // wahern_advance: the wheel jumps and whatever came due is drained.
    method Advance(target: nat)
      requires Valid() && now <= target < TWO64
      modifies this, wheel, wheel.wheel, wheel.pending, wheel.members, timers.Values
      ensures Valid() && View() == AdvanceTo(old(View()), target)
      ensures timers.Values <= old(timers.Values)
    {
      hide Table, Sorted, View;
      ghost var b := View();
      Update(target);
      var fired := DrainAll(b);
    }

    // wahern_size
    method Size() returns (n: nat)
      requires Valid()
      ensures n == |View().due|
    {
      assert View().due.Keys == timers.Keys;
      assert |timers| == |timers.Keys| && |View().due| == |View().due.Keys|;
      n := live;
    }
  }

  lemma FirstExpired(w: Timeouts)
    requires w.Valid() && w.expired != []
    ensures w.expired[0] in w.members && w.expired[0].pending == OnExpired && w.expired[0].expires <= w.curtime
  {
    assert w.expired[0] in w.expired;
    assert w.Linked(w.expired[0]);
  }
}
