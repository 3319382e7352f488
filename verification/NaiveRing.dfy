// src/benchmarks/c/impl/naive.c: one ring of slots, grown until it covers the longest ttl, so that
// a slot can be fired without looking at deadlines.
module NaiveRing {
  import opened Words
  import opened TimerBag
  import opened Slots

  // expire & (num_slots - 1)
  function SlotOf(expire: nat, slots: nat): nat
    requires slots > 0
  {
    And(expire, slots - 1)
  }

  lemma SlotIsLow(expire: nat, bits: nat)
    ensures SlotOf(expire, Pow2(bits)) == Low(expire, bits) < Pow2(bits)
  {
    AndOnes(expire, bits);
    LowBound(expire, bits);
  }

  // Within one turn of the ring the slot tells the time.
  lemma {:induction false} LowUnique(a: nat, b: nat, n: nat)
    requires Low(a, n) == Low(b, n) && a <= b < a + Pow2(n)
    ensures a == b
  {
    if n > 0 {
      LowUnique(a / 2, b / 2, n - 1);
    }
  }

  // Every timer is in the slot of its deadline's low bits. The deadline lies within one turn of the
  // ring: ahead, or, for a timer started with ttl 0, behind.
  predicate InTurn(meta: map<nat, Meta>, now: nat, bits: nat)
  {
    forall id :: id in meta ==> Turns(meta[id], now, bits)
  }

  predicate Turns(x: Meta, now: nat, bits: nat)
  {
    now < x.expire + Pow2(bits) && x.expire < now + Pow2(bits) && x.slot == Low(x.expire, bits)
  }

  // So the slot of the next clock holds exactly the timers due then, and those started with ttl 0 a
  // turn before.
  lemma TurnsAt(x: Meta, now: nat, bits: nat)
    requires Turns(x, now, bits)
    ensures x.slot == Low(now + 1, bits) <==> x.expire == now + 1 || x.expire + Pow2(bits) == now + 1
    ensures x.slot != Low(now + 1, bits) ==> Turns(x, now + 1, bits)
  {
    LowDrop(x.expire, bits);
    if x.slot == Low(now + 1, bits) {
      if now + 1 <= x.expire {
        LowUnique(now + 1, x.expire, bits);
      } else if now + 1 < x.expire + Pow2(bits) {
        LowUnique(x.expire, now + 1, bits);
      }
    }
  }

  lemma SlotIsDue(slots: seq<seq<nat>>, meta: map<nat, Meta>, now: nat, bits: nat)
    requires Indexed(slots, meta) && InTurn(meta, now, bits) && |slots| == Pow2(bits)
    ensures Low(now + 1, bits) < |slots|
    ensures Ids(slots[Low(now + 1, bits)]) == FiredLate(Bag(now, Deadlines(meta)), |slots|)
    ensures InTurn(meta - Ids(slots[Low(now + 1, bits)]), now + 1, bits)
  {
    var k := Low(now + 1, bits);
    LowBound(now + 1, bits);
    ClearKeeps(slots, meta, k);
    hide Turns, Low, Indexed;
    forall id | id in meta
      ensures meta[id].slot == k <==> meta[id].expire == now + 1 || meta[id].expire + Pow2(bits) == now + 1
      ensures meta[id].slot != k ==> Turns(meta[id], now + 1, bits)
    {
      TurnsAt(meta[id], now, bits);
    }
  }

  lemma PlacedTurn(m: map<nat, Meta>, meta: map<nat, Meta>, id: nat, now: nat, bits: nat)
    requires InTurn(m, now, bits) && id !in m && meta.Keys == m.Keys + {id}
    requires forall x :: x in m ==> meta[x] == m[x]
    requires Turns(meta[id], now, bits)
    ensures InTurn(meta, now, bits) && |meta| == |m| + 1
  {
    assert |meta| == |meta.Keys| && |m| == |m.Keys|;
  }

  lemma RemoveTurn(slots: seq<seq<nat>>, meta: map<nat, Meta>, id: nat, now: nat, bits: nat)
    requires Indexed(slots, meta) && InTurn(meta, now, bits) && id in meta
    ensures meta[id].slot < |slots| && meta[id].pos < |slots[meta[id].slot]|
    ensures var k, p := meta[id].slot, meta[id].pos; var m := RemoveMeta(slots, meta, k, p);
      && Indexed(RemoveAt(slots, k, p), m) && InTurn(m, now, bits)
      && |m| == |meta| - 1 && Deadlines(m) == Drop(Deadlines(meta), {id})
  {
    assert Found(slots, meta, id);
    var k, p := meta[id].slot, meta[id].pos;
    RemoveKeeps(slots, meta, k, p);
    var m := RemoveMeta(slots, meta, k, p);
    assert |m.Keys| == |m| && |meta.Keys| == |meta|;
    forall x | x in m ensures Turns(m[x], now, bits) {
      assert m[x].(pos := 0) == meta[x].(pos := 0);
    }
  }

  lemma TickTurn(slots: seq<seq<nat>>, meta: map<nat, Meta>, now: nat, bits: nat)
    requires Indexed(slots, meta) && InTurn(meta, now, bits) && |slots| == Pow2(bits)
    ensures var k := SlotOf(now + 1, |slots|);
      && k < |slots|
      && Indexed(Clear(slots, k), meta - Ids(slots[k])) && InTurn(meta - Ids(slots[k]), now + 1, bits)
      && Bag(now + 1, Deadlines(meta - Ids(slots[k]))) == LateTick(Bag(now, Deadlines(meta)), |slots|)
      && |meta - Ids(slots[k])| == |meta| - |slots[k]|
      && |slots[k]| == |FiredLate(Bag(now, Deadlines(meta)), |slots|)|
  {
    hide Indexed, InTurn, Deadlines, Drop, FiredLate, SlotOf, Ids, Clear, Low, Pow2;
    SlotIsDue(slots, meta, now, bits);
    SlotIsLow(now + 1, bits);
    ClearKeeps(slots, meta, SlotOf(now + 1, |slots|));
    SlotSize(slots, meta, SlotOf(now + 1, |slots|));
  }

  class Ring {
    var slots: array<seq<nat>>
    var meta: map<nat, Meta>
    var now: nat
    var live: nat
    ghost var bits: nat

    ghost predicate Valid()
      reads this, slots
    {
      && slots.Length == Pow2(bits)
      && Indexed(slots[..], meta)
      && InTurn(meta, now, bits)
      && live == |meta|
    }

    ghost function View(): Bag
      reads this
    {
      Bag(now, Deadlines(meta))
    }

    constructor ()
      ensures Valid() && fresh(slots) && View() == Bag(0, map[])
    {
      slots := new seq<nat>[256](_ => []);
      meta, now, live, bits := map[], 0, 0, 8;
      new;
      assert Pow2(8) == 256 by { assert Pow2(4) == 16; }
    }

    // place
    method Place(id: nat, expire: nat)
      requires slots.Length == Pow2(bits) && Indexed(slots[..], meta) && id !in meta
      modifies `meta, slots
      ensures Indexed(slots[..], meta)
      ensures Deadlines(meta) == Deadlines(old(meta))[id := expire]
      ensures meta.Keys == old(meta.Keys) + {id} && meta[id].expire == expire && meta[id].slot == Low(expire, bits)
      ensures forall x :: x in old(meta) ==> meta[x] == old(meta)[x]
    {
      SlotIsLow(expire, bits);
      var idx := SlotOf(expire, slots.Length);
      PushKeeps(slots[..], meta, idx, id, expire);
      meta := SlotPush(slots, meta, idx, id, expire);
    }

    // naive_start
    method Start(id: nat, ttl: nat)
      requires Valid() && id !in View().due && now + ttl < TWO64
      modifies this, slots
      ensures Valid() && View() == TimerBag.Start(old(View()), id, ttl)
      ensures slots == old(slots) || fresh(slots)
    {
      hide Indexed, InTurn, Deadlines, Pow2;
      DeadlinesHas(meta, id);
      EnsureTurn(ttl);
      Insert(id, now + ttl);
    }

    method EnsureTurn(ttl: nat)
      requires Valid()
      modifies this
      ensures Valid() && View() == old(View()) && meta.Keys == old(meta.Keys)
      ensures ttl < slots.Length && (slots == old(slots) || fresh(slots))
    {
      hide Indexed, InTurn, Deadlines;
      if ttl >= slots.Length {
        GrowRing(ttl);
      }
    }

    method Insert(id: nat, expire: nat)
      requires Valid() && id !in meta && now <= expire < now + slots.Length
      modifies `meta, `live, slots
      ensures Valid() && View() == Bag(now, old(View().due)[id := expire])
    {
      hide Indexed, InTurn, Deadlines, Low;
      ghost var m := meta;
      Place(id, expire);
      live := live + 1;
      PlacedTurn(m, meta, id, now, bits);
    }

    // The loop that picks the new size.
    method NewSize(minTtl: nat) returns (ns: nat, ghost n: nat)
      requires slots.Length == Pow2(bits)
      ensures ns == Pow2(n) > minTtl && n >= bits
      ensures ns > slots.Length ==> ns <= 2 * minTtl
    {
      ns, n := slots.Length, bits;
      while ns <= minTtl
        invariant ns == Pow2(n) && n >= bits
        invariant ns > slots.Length ==> ns <= 2 * minTtl
        decreases minTtl - ns
      {
        ns, n := 2 * ns, n + 1;
      }
    }

    // naive_stop
    method Stop(id: nat) returns (found: bool)
      requires Valid()
      modifies this, slots
      ensures Valid() && View() == TimerBag.Stop(old(View()), id) && slots == old(slots)
      ensures found <==> id in old(View()).due
    {
      found := id in meta;
      if found {
        RemoveTurn(slots[..], meta, id, now, bits);
        hide Indexed, InTurn, Deadlines, Drop, RemoveAt, RemoveMeta;
        meta := SlotRemoveAt(slots, meta, meta[id].slot, meta[id].pos);
        live := live - 1;
      } else {
        assert Drop(View().due, {id}) == View().due;
      }
    }

    // naive_tick: what is due is fired, and what was started with ttl 0 one turn of the ring ago.
    method Tick() returns (fired: nat)
      requires Valid()
      modifies this, slots
      ensures Valid() && View() == LateTick(old(View()), slots.Length) && slots == old(slots)
      ensures fired == |FiredLate(old(View()), slots.Length)|
    {
      hide Indexed, InTurn, Deadlines, Drop, FiredLate, SlotOf, Ids, Clear, Low, Pow2;
      TickTurn(slots[..], meta, now, bits);
      now := now + 1;
      meta, fired := SlotFire(slots, meta, SlotOf(now, slots.Length));
      live := live - fired;
    }

    // naive_size
    method Size() returns (n: nat)
      requires Valid()
      ensures n == |View().due|
    {
      assert View().due.Keys == meta.Keys;
      assert |View().due| == |View().due.Keys| && |meta| == |meta.Keys|;
      n := live;
    }

    // naive_advance, to a clock at which no timer is fired yet
    method Advance(target: nat)
      requires Valid() && now <= target && forall id :: id in View().due ==> target < FiresAt(View(), slots.Length, id)
      modifies `now
      ensures Valid() && View() == old(View()).(now := target)
    {
      assert forall id :: id in meta ==> id in View().due && Turns(meta[id], now, bits);
      now := target;
    }

    // What of the old metadata has been placed anew, up to the j-th id of old slot i.
    ghost predicate Rehashed(before: map<nat, Meta>, i: nat, j: nat)
      reads this, slots
    {
      && slots.Length == Pow2(bits)
      && Indexed(slots[..], meta)
      && (forall id :: id in meta ==> Moved(before, id))
      && (forall id :: id in before ==> (id in meta <==> Passed(before[id], i, j)))
    }

    ghost predicate Moved(before: map<nat, Meta>, id: nat)
      reads `meta, `bits
      requires id in meta
    {
      id in before && meta[id].expire == before[id].expire && meta[id].slot == Low(meta[id].expire, bits)
    }

    // The inner loop of grow_ring, over one old slot.
    method PlaceAll(list: seq<nat>, before: map<nat, Meta>, ghost s: seq<seq<nat>>, ghost i: nat)
      requires Indexed(s, before) && i < |s| && s[i] == list && Rehashed(before, i, 0)
      modifies `meta, slots
      ensures Rehashed(before, i + 1, 0)
    {
      for j := 0 to |list|
        invariant Rehashed(before, i, j)
      {
        var id := list[j];
        assert At(s, before, i, j);
        Place(id, before[id].expire);
        forall x | x in before ensures Passed(before[x], i, j + 1) <==> Passed(before[x], i, j) || x == id {
          assert Found(s, before, x);
        }
      }
      forall id | id in before ensures Passed(before[id], i, |list|) <==> Passed(before[id], i + 1, 0) {
        assert Found(s, before, id);
      }
    }

    // grow_ring
    method GrowRing(minTtl: nat)
      requires Valid()
      modifies this
      ensures Valid() && View() == old(View()) && fresh(slots)
      ensures slots.Length > minTtl && now == old(now) && meta.Keys == old(meta.Keys)
      ensures slots.Length > old(slots.Length) ==> slots.Length <= 2 * minTtl
    {
      ghost var s, m := slots[..], meta;
      hide InTurn, Deadlines;
      var ns, n := NewSize(minTtl);
      var before, oldMeta := slots, meta;
      slots := new seq<nat>[ns](_ => []);
      bits, meta := n, map[];
      for i := 0 to before.Length
        invariant slots.Length == ns && fresh(slots) && slots != before && before[..] == s
        invariant bits == n && now == old(now) && live == old(live)
        invariant Rehashed(m, i, 0)
      {
        PlaceAll(before[i], oldMeta, s, i);
      }
      Pow2Mono(old(bits), n);
      RehashEnds(m, s, old(bits));
    }

    lemma RehashEnds(m: map<nat, Meta>, s: seq<seq<nat>>, oldBits: nat)
      requires Rehashed(m, |s|, 0) && Indexed(s, m) && InTurn(m, now, oldBits) && Pow2(oldBits) <= Pow2(bits)
      ensures InTurn(meta, now, bits) && |meta| == |m| && meta.Keys == m.Keys && Deadlines(meta) == Deadlines(m)
    {
      assert forall id :: id in m ==> Found(s, m, id);
      assert meta.Keys == m.Keys;
      assert |meta| == |meta.Keys| && |m| == |m.Keys|;
      forall id | id in meta ensures Turns(meta[id], now, bits) {
        assert Moved(m, id) && Turns(m[id], now, oldBits);
      }
    }
  }

  // Position j of slot i comes after where x was.
  predicate Passed(x: Meta, i: nat, j: nat) { x.slot < i || (x.slot == i && x.pos < j) }
}
