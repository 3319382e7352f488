// The tickless hierarchical timing wheel: article/src/c/wheel/timeout.c.
module TickWheel {
  import opened Words
  import opened Bitops
  import opened WheelBits
  import opened Lists

  // `to->pending`: the list a timer is linked on.
  datatype Place = Nowhere | OnExpired | OnWheel(index: nat)

  class Timeout {
    var periodic: bool        // TIMEOUT_INT
    var absolute: bool        // TIMEOUT_ABS
    var expires: nat
    var interval: nat
    var pending: Place
    var timeouts: Timeouts?
    const arg: nat            // callback.arg

    constructor (periodic: bool, absolute: bool, arg: nat)
      ensures this.periodic == periodic && this.absolute == absolute && this.arg == arg
      ensures pending == Nowhere && timeouts == null && expires == 0 && interval == 0
    {
      this.periodic, this.absolute, this.arg := periodic, absolute, arg;
      expires, interval, pending, timeouts := 0, 0, Nowhere, null;
    }
  }

  class Timeouts {
    const wheel: array<seq<Timeout>>   // wheel[w][s] at index 64 * w + s
    var expired: seq<Timeout>
    const pending: array<nat>          // one occupancy mask per wheel
    var curtime: nat
    ghost var members: set<Timeout>    // every timer linked on some list

    ghost predicate Shape()
      reads this
    {
      wheel.Length == 256 && pending.Length == WHEEL_NUM && curtime < TWO64
    }

    // A linked timer is on the list it names, and may stand there at the current time.
    ghost predicate Linked(t: Timeout)
      requires Shape()
      reads this, wheel, t
    {
      && t.timeouts == this
      && t.expires < TWO64
      && match t.pending
         case Nowhere => false
         case OnExpired => t in expired && t.expires <= curtime
         case OnWheel(i) => i < 256 && t in wheel[i] && Placed(t.expires, i / 64, i % 64, curtime)
    }

    ghost predicate ListAt(i: nat)
      requires Shape() && i < 256
      reads this, wheel, members
    {
      && NoDup(wheel[i])
      && forall t :: t in wheel[i] ==> t in members && t.pending == OnWheel(i)
    }

    // The occupancy masks mark exactly the slots that hold a timer.
    ghost predicate Mask(i: nat)
      requires Shape() && i < 256
      reads this, wheel, pending
    {
      Bit(pending[i / 64], i % 64) <==> wheel[i] != []
    }

    ghost predicate Valid()
      reads this, wheel, pending, members
    {
      && Shape()
      && (forall t :: t in members ==> Linked(t))
      && (forall i :: 0 <= i < 256 ==> ListAt(i))
      && NoDup(expired)
      && (forall t :: t in expired ==> t in members && t.pending == OnExpired)
      && (forall w :: 0 <= w < WHEEL_NUM ==> pending[w] < Pow2(64))
      && (forall i :: 0 <= i < 256 ==> Mask(i))
    }

    constructor ()
      ensures Valid() && members == {} && curtime == 0 && expired == []
      ensures fresh(wheel) && fresh(pending)
    {
      wheel := new seq<Timeout>[256](_ => []);
      pending := new nat[WHEEL_NUM](_ => 0);
      expired, curtime, members := [], 0, {};
      new;
      forall i | 0 <= i < 256
        ensures Mask(i)
      {
        ZeroBit(i % 64);
      }
    }

    // `pending[i / 64] |= 1 << i % 64`.
    method MarkSlot(i: nat)
      requires Shape() && i < 256 && pending[i / 64] < Pow2(64)
      modifies pending
      ensures forall w :: 0 <= w < WHEEL_NUM && w != i / 64 ==> pending[w] == old(pending[w])
      ensures pending[i / 64] < Pow2(64)
      ensures forall j :: 0 <= j < 256 ==>
                (Bit(pending[j / 64], j % 64) <==> old(Bit(pending[j / 64], j % 64)) || j == i)
    {
      hide WithBit, Bit, Pow2;
      ghost var was := pending[i / 64];
      pending[i / 64] := WithBit(pending[i / 64], i % 64);
      WithBitIs(was, i % 64, 0);
      forall j | 0 <= j < 256
        ensures Bit(pending[j / 64], j % 64) <==> old(Bit(pending[j / 64], j % 64)) || j == i
      {
        WithBitIs(was, i % 64, j % 64);
      }
    }

    // `pending[i / 64] &= ~(1 << i % 64)`.
    method ClearSlot(i: nat)
      requires Shape() && i < 256 && pending[i / 64] < Pow2(64)
      modifies pending
      ensures forall w :: 0 <= w < WHEEL_NUM && w != i / 64 ==> pending[w] == old(pending[w])
      ensures pending[i / 64] < Pow2(64)
      ensures forall j :: 0 <= j < 256 ==>
                (Bit(pending[j / 64], j % 64) <==> old(Bit(pending[j / 64], j % 64)) && j != i)
    {
      hide WithoutBit, Bit, Pow2;
      ghost var was := pending[i / 64];
      pending[i / 64] := WithoutBit(pending[i / 64], i % 64);
      WithoutBitIs(was, i % 64, 0);
      forall j | 0 <= j < 256
        ensures Bit(pending[j / 64], j % 64) <==> old(Bit(pending[j / 64], j % 64)) && j != i
      {
        WithoutBitIs(was, i % 64, j % 64);
      }
    }

    // `timeouts_del` for a timer on a wheel.
    method UnlinkWheel(to: Timeout)
      requires Valid() && to in members && to.pending.OnWheel?
      modifies this`members, wheel, pending, to`pending, to`timeouts
      ensures Valid() && members == old(members) - {to}
      ensures to.pending == Nowhere && to.timeouts == null
      ensures forall j :: 0 <= j < 256 ==>
                wheel[j] == if old(to.pending) == OnWheel(j) then Without(old(wheel[j]), to) else old(wheel[j])
    {
      hide Bit, Placed;
      var i := to.pending.index;
      assert Linked(to) && ListAt(i);
      WithoutIs(wheel[i], to);
      wheel[i] := Without(wheel[i], to);
      to.pending, to.timeouts := Nowhere, null;
      members := members - {to};
      if wheel[i] == [] {
        ClearSlot(i);
      }
      forall j | 0 <= j < 256
        ensures ListAt(j) && Mask(j)
      {
        assert old(ListAt(j)) && old(Mask(j));
      }
    }

    // `timeouts_del` for a timer on the expired list.
    method UnlinkExpired(to: Timeout)
      requires Valid() && to in members && to.pending.OnExpired?
      modifies this`members, this`expired, to`pending, to`timeouts
      ensures Valid() && members == old(members) - {to}
      ensures to.pending == Nowhere && to.timeouts == null
      ensures expired == Without(old(expired), to)
    {
      hide Bit, Placed;
      assert Linked(to);
      WithoutIs(expired, to);
      expired := Without(expired, to);
      to.pending, to.timeouts := Nowhere, null;
      members := members - {to};
      forall j | 0 <= j < 256
        ensures ListAt(j) && Mask(j)
      {
        assert old(ListAt(j)) && old(Mask(j));
      }
    }

    // Removes a timer from whichever list it is on; a timer on none is left alone.
    method Del(to: Timeout)
      requires Valid() && (to in members || to.pending == Nowhere)
      modifies this`members, this`expired, wheel, pending, to`pending, to`timeouts
      ensures Valid() && members == old(members) - {to}
      ensures to.pending == Nowhere
      ensures expired == if old(to.pending).OnExpired? then Without(old(expired), to) else old(expired)
      ensures old(to.pending) == Nowhere ==> to.timeouts == old(to.timeouts)
      ensures forall j :: 0 <= j < 256 ==>
                wheel[j] == if old(to.pending) == OnWheel(j) then Without(old(wheel[j]), to) else old(wheel[j])
    {
      if to in members {
        assert Linked(to);
      }
      if to.pending.OnWheel? {
        UnlinkWheel(to);
      } else if to.pending.OnExpired? {
        UnlinkExpired(to);
      }
    }

    // Appends a timer to a wheel slot and marks the slot.
    method LinkWheel(to: Timeout, i: nat)
      requires Valid() && to !in members && i < 256
      requires to.expires < TWO64 && to.timeouts == this && Placed(to.expires, i / 64, i % 64, curtime)
      modifies this`members, wheel, pending, to`pending
      ensures Valid() && members == old(members) + {to}
      ensures to.pending == OnWheel(i) && wheel[i] == old(wheel[i]) + [to]
      ensures forall j :: 0 <= j < 256 && j != i ==> wheel[j] == old(wheel[j])
    {
      hide Bit, Placed;
      assert old(ListAt(i));
      NoDupAppend(wheel[i], to);
      to.pending := OnWheel(i);
      wheel[i] := wheel[i] + [to];
      members := members + {to};
      MarkSlot(i);
      forall j | 0 <= j < 256
        ensures ListAt(j) && Mask(j)
      {
        assert old(ListAt(j)) && old(Mask(j));
      }
    }

    method LinkExpired(to: Timeout)
      requires Valid() && to !in members
      requires to.expires < TWO64 && to.timeouts == this && to.expires <= curtime
      modifies this`members, this`expired, to`pending
      ensures Valid() && members == old(members) + {to}
      ensures to.pending == OnExpired && expired == old(expired) + [to]
    {
      hide Bit, Placed;
      NoDupAppend(expired, to);
      to.pending := OnExpired;
      expired := expired + [to];
      members := members + {to};
      forall j | 0 <= j < 256
        ensures ListAt(j) && Mask(j)
      {
        assert old(ListAt(j)) && old(Mask(j));
      }
    }

    // (Re)schedules a timer for the absolute time `expires`.
    method Sched(to: Timeout, expires: nat)
      requires Valid() && (to in members || to.pending == Nowhere) && expires < TWO64
      modifies this`members, this`expired, wheel, pending, to`pending, to`timeouts, to`expires
      ensures Valid() && members == old(members) + {to}
      ensures to.expires == expires
      ensures to.pending == OnExpired <==> expires <= curtime
      ensures var kept := if old(to.pending).OnExpired? then Without(old(expired), to) else old(expired);
              expired == if expires <= curtime then kept + [to] else kept
      ensures expires > curtime ==> to.pending.OnWheel? && HoldsRest(to.pending.index / 64, expires - curtime)
      ensures forall j :: 0 <= j < 256 ==>
                var kept := if old(to.pending) == OnWheel(j) then Without(old(wheel[j]), to) else old(wheel[j]);
                wheel[j] == if to.pending == OnWheel(j) then kept + [to] else kept
    {
      hide Bit, Placed, HoldsRest, Without, ListAt, Mask;
      Del(to);
      to.expires := expires;
      to.timeouts := this;
      Link(to);
    }

    // Puts a timer on the list its deadline selects.
    method Link(to: Timeout)
      requires Valid() && to !in members && to.expires < TWO64 && to.timeouts == this
      modifies this`members, this`expired, wheel, pending, to`pending
      ensures Valid() && members == old(members) + {to}
      ensures to.pending == OnExpired <==> to.expires <= curtime
      ensures expired == if to.expires <= curtime then old(expired) + [to] else old(expired)
      ensures to.expires > curtime ==> to.pending.OnWheel? && HoldsRest(to.pending.index / 64, to.expires - curtime)
      ensures forall j :: 0 <= j < 256 ==>
                wheel[j] == if to.pending == OnWheel(j) then old(wheel[j]) + [to] else old(wheel[j])
    {
      hide Bit, Placed, HoldsRest, Linked, ListAt, Mask;
      if to.expires > curtime {
        var rem := to.expires - curtime;
        var w := TimeoutWheel(rem);
        SchedulePlaces(to.expires, curtime);
        var slot := TimeoutSlot(w, to.expires);
        LinkWheel(to, WHEEL_LEN * w + slot);
      } else {
        LinkExpired(to);
      }
    }

    // The interval plays no part in where a timer stands.
    method SetInterval(to: Timeout, interval: nat)
      requires Valid()
      modifies to`interval
      ensures Valid() && to.interval == interval
    {
      hide Bit, Placed;
      to.interval := interval;
      forall t | t in members
        ensures Linked(t)
      {
        assert old(Linked(t));
      }
      forall j | 0 <= j < 256
        ensures ListAt(j) && Mask(j)
      {
        assert old(ListAt(j)) && old(Mask(j));
      }
    }

    // Starts a timer, relative to the clock or at an absolute time.
    method Add(to: Timeout, timeout: nat)
      requires Valid() && (to in members || to.pending == Nowhere) && timeout < TWO64
      modifies this`members, this`expired, wheel, pending, to`pending, to`timeouts, to`expires, to`interval
      ensures Valid() && members == old(members) + {to}
      ensures to.expires == if to.absolute then timeout else (curtime + timeout) % TWO64
      ensures to.interval == if to.periodic then (if timeout == 0 then 1 else timeout) else old(to.interval)
      ensures to.pending == OnExpired <==> to.expires <= curtime
      ensures to.expires > curtime ==> to.pending.OnWheel? && HoldsRest(to.pending.index / 64, to.expires - curtime)
      ensures forall j :: 0 <= j < 256 ==>
                var kept := if old(to.pending) == OnWheel(j) then Without(old(wheel[j]), to) else old(wheel[j]);
                wheel[j] == if to.pending == OnWheel(j) then kept + [to] else kept
    {
      if to.periodic {
        SetInterval(to, if 1 > timeout then 1 else timeout);
      }
      if to.absolute {
        Sched(to, timeout);
      } else {
        Sched(to, (curtime + timeout) % TWO64);
      }
    }

    // ---- Moving the clock ----

    // Moves the timers of one slot to the end of `todo`.
    method TakeSlot(i: nat, todo: seq<Timeout>) returns (todo': seq<Timeout>)
      requires Valid() && i < 256
      modifies this`members, wheel, pending
      ensures Valid() && wheel[i] == []
      ensures forall j :: 0 <= j < 256 && j != i ==> wheel[j] == old(wheel[j])
      ensures todo' == todo + old(wheel[i])
      ensures members == old(members) - (set t | t in old(wheel[i]))
    {
      hide Bit, Placed;
      todo' := todo + wheel[i];
      assert old(ListAt(i));
      members := members - (set t | t in wheel[i]);
      wheel[i] := [];
      ClearSlot(i);
      forall t | t in members
        ensures Linked(t)
      {
        assert old(Linked(t));
      }
      forall j | 0 <= j < 256
        ensures ListAt(j) && Mask(j)
      {
        assert old(ListAt(j)) && old(Mask(j));
      }
    }

    // The timers waiting to be rescheduled and the linked ones together are `all`, each once.
    ghost predicate Waiting(todo: seq<Timeout>, all: set<Timeout>)
      reads this`members
    {
      && NoDup(todo)
      && members <= all
      && (forall t :: t in todo ==> t in all && t !in members)
      && (forall t :: t in all ==> t in members || t in todo)
    }

    method MoveSlot(i: nat, todo: seq<Timeout>, ghost all: set<Timeout>) returns (todo': seq<Timeout>)
      requires Valid() && i < 256 && wheel[i] != []
      requires Waiting(todo, all)
      modifies this`members, wheel, pending
      ensures Valid() && Waiting(todo', all)
      ensures forall j :: 0 <= j < 256 && j != i ==> wheel[j] == old(wheel[j])
      ensures members < old(members)
    {
      hide Bit, Placed, Linked, Mask;
      assert ListAt(i);
      ghost var moved := wheel[i];
      todo' := TakeSlot(i, todo);
      NoDupConcat(todo, moved);
      assert moved[0] in moved;
    }

    // Empties the occupied slots of wheel `w` that are in `mask`.
    method TakeWheel(w: nat, mask: nat, todo: seq<Timeout>, ghost all: set<Timeout>) returns (todo': seq<Timeout>)
      requires Valid() && w < WHEEL_NUM && mask < Pow2(64)
      requires Waiting(todo, all)
      modifies this`members, wheel, pending
      ensures Valid() && Waiting(todo', all)
      ensures forall j :: 0 <= j < 256 && j / 64 != w ==> wheel[j] == old(wheel[j])
      ensures forall s :: 0 <= s < 64 && Bit(mask, s) ==> wheel[64 * w + s] == []
    {
      hide Bit, Linked, ListAt;
      todo' := todo;
      while And(mask, pending[w]) != 0
        invariant Valid() && Waiting(todo', all)
        invariant forall j :: 0 <= j < 256 && j / 64 != w ==> wheel[j] == old(wheel[j])
        decreases members
      {
        FirstSlot(mask, pending[w]);
        var slot := Ctz(And(mask, pending[w]));
        assert Mask(64 * w + slot);
        todo' := MoveSlot(64 * w + slot, todo', all);
      }
      Emptied(w, mask);
    }

    lemma Emptied(w: nat, mask: nat)
      requires Valid() && w < WHEEL_NUM && And(mask, pending[w]) == 0
      ensures forall s :: 0 <= s < 64 && Bit(mask, s) ==> wheel[64 * w + s] == []
    {
      hide Bit, Linked, ListAt;
      forall s | 0 <= s < 64 && Bit(mask, s)
        ensures wheel[64 * w + s] == []
      {
        AndBit(mask, pending[w], s);
        ZeroBit(s);
        assert Mask(64 * w + s);
      }
    }

    // No slot of wheel `v` that an update looks at holds a timer any more.
    ghost predicate Passed(v: nat, now: nat)
      requires Shape() && v < WHEEL_NUM && curtime <= now
      reads this, wheel
    {
      forall s :: 0 <= s < 64 && Bit(ExpiringMask(v, Elapsed(v, curtime, now), curtime, now), s) ==>
                wheel[64 * v + s] == []
    }

    // Takes everything an update must look at off wheel `w`; `wrapped` tells whether slot 0 was
    // among it.
    method PassWheel(w: nat, elapsed: nat, now: nat, todo: seq<Timeout>, ghost all: set<Timeout>)
      returns (todo': seq<Timeout>, wrapped: bool)
      requires Valid() && w < WHEEL_NUM && curtime <= now && Waiting(todo, all)
      requires elapsed == Elapsed(w, curtime, now)
      requires forall v :: 0 <= v < w ==> Passed(v, now)
      modifies this`members, wheel, pending
      ensures Valid() && Waiting(todo', all)
      ensures forall v :: 0 <= v <= w ==> Passed(v, now)
      ensures wrapped <==> Bit(ExpiringMask(w, elapsed, curtime, now), 0)
    {
      hide Bit, Linked, ListAt, Mask, Shl, ExpiringMask, Waiting;
      var expiring := ExpiringMask(w, elapsed, curtime, now);
      MaskBit(w, elapsed, curtime, now, 0);
      todo' := TakeWheel(w, expiring, todo, all);
      forall v | 0 <= v <= w
        ensures Passed(v, now)
      {
        assert v < w ==> old(Passed(v, now));
      }
      AndSingle(expiring, 0);
      wrapped := And(expiring, 0x1) != 0;
    }

    // The first half of `timeouts_update`: takes off the wheels every timer that must be looked at
    // by `now`.
    method TakeDue(now: nat) returns (todo: seq<Timeout>)
      requires Valid() && curtime <= now < TWO64
      modifies this`members, wheel, pending
      ensures Valid() && Waiting(todo, old(members))
      ensures forall t :: t in members && t.pending.OnWheel? ==>
                t.pending.index < 256 && Placed(t.expires, t.pending.index / 64, t.pending.index % 64, now)
    {
      hide Bit, Linked, ListAt, Mask, Shl, ExpiringMask, Placed, Passed;
      var elapsed := now - curtime;
      todo := [];
      var w := 0;
      var wrapped := true;
      while w < WHEEL_NUM && wrapped
        invariant w <= WHEEL_NUM
        invariant Valid() && Waiting(todo, old(members))
        invariant forall v :: 0 <= v < w ==> Passed(v, now)
        invariant wrapped ==> elapsed == Elapsed(w, curtime, now)
        invariant !wrapped ==> w > 0 && !Bit(ExpiringMask(w - 1, Elapsed(w - 1, curtime, now), curtime, now), 0)
      {
        todo, wrapped := PassWheel(w, elapsed, now, todo, old(members));
        NextElapsed(w, curtime, now);
        elapsed := if elapsed > Shl(WHEEL_LEN, w * WHEEL_BIT, 32) then elapsed else Shl(WHEEL_LEN, w * WHEEL_BIT, 32);
        w := w + 1;
      }
      forall t | t in members && t.pending.OnWheel?
        ensures t.pending.index < 256 && Placed(t.expires, t.pending.index / 64, t.pending.index % 64, now)
      {
        LeftPlaced(t, w, now);
      }
    }

    lemma LeftPlaced(t: Timeout, w: nat, now: nat)
      requires Valid() && curtime <= now && t in members && t.pending.OnWheel?
      requires w <= WHEEL_NUM && forall v :: 0 <= v < w ==> Passed(v, now)
      requires w == WHEEL_NUM || (w > 0 && !Bit(ExpiringMask(w - 1, Elapsed(w - 1, curtime, now), curtime, now), 0))
      ensures t.pending.index < 256
      ensures Placed(t.expires, t.pending.index / 64, t.pending.index % 64, now)
    {
      hide Bit, ListAt, Mask, ExpiringMask, Placed;
      assert Linked(t);
      var i := t.pending.index;
      var v := i / 64;
      if v < w {
        assert Passed(v, now);
        StaysPlaced(t.expires, v, i % 64, Elapsed(v, curtime, now), curtime, now);
      } else {
        StillPlaced(t.expires, v, i % 64, w - 1, curtime, now);
      }
    }

    // Puts the clock on; the timers left on the wheels may stay.
    method SetClock(now: nat)
      requires Valid() && curtime <= now < TWO64
      requires forall t :: t in members && t.pending.OnWheel? ==>
                 t.pending.index < 256 && Placed(t.expires, t.pending.index / 64, t.pending.index % 64, now)
      modifies this`curtime
      ensures Valid() && curtime == now
    {
      hide Bit, Placed;
      curtime := now;
      forall t | t in members
        ensures Linked(t)
      {
        assert old(Linked(t));
      }
      forall j | 0 <= j < 256
        ensures ListAt(j) && Mask(j)
      {
        assert old(ListAt(j)) && old(Mask(j));
      }
    }

    // Forgets the list a waiting timer came from.
    method Forget(to: Timeout)
      requires Valid() && to !in members
      modifies to`pending
      ensures Valid() && to.pending == Nowhere
    {
      hide Bit, Placed;
      to.pending := Nowhere;
      forall t | t in members
        ensures Linked(t)
      {
        assert old(Linked(t));
      }
      forall j | 0 <= j < 256
        ensures ListAt(j) && Mask(j)
      {
        assert old(ListAt(j)) && old(Mask(j));
      }
    }

    // The second half: every timer taken off is scheduled again, at the new time.
    method Replace(todo: seq<Timeout>, ghost all: set<Timeout>)
      requires Valid() && Waiting(todo, all)
      requires forall t :: t in todo ==> t.expires < TWO64
      modifies this`members, this`expired, wheel, pending, all`pending, all`timeouts, all`expires
      ensures Valid() && members == all
      ensures forall t :: t in all ==> t.expires == old(t.expires)
      ensures old(expired) <= expired
    {
      hide Bit, Linked, ListAt, Mask;
      var todo := todo;
      while todo != []
        invariant Valid() && Waiting(todo, all)
        invariant forall t :: t in todo ==> t.expires < TWO64
        invariant forall t :: t in all ==> t.expires == old(t.expires)
        invariant old(expired) <= expired
      {
        var to := todo[0];
        NoDupTail(todo);
        todo := todo[1..];
        Forget(to);
        Sched(to, to.expires);
      }
    }

    // Moves the clock to `now`. Afterwards exactly the timers that have come due are on the expired
    // list and every other one is on a wheel; none is lost and no deadline changes.
    method Update(now: nat)
      requires Valid() && curtime <= now < TWO64
      modifies this`members, this`expired, this`curtime, wheel, pending, members`pending, members`timeouts,
               members`expires
      ensures Valid() && curtime == now && members == old(members)
      ensures forall t :: t in members ==> t.expires == old(t.expires)
      ensures forall t :: t in members ==> (t.pending == OnExpired <==> t.expires <= now)
      ensures old(expired) <= expired
    {
      hide Bit, Placed, Mask, ListAt;
      forall t | t in members
        ensures t.expires < TWO64
      {
        assert Linked(t);
      }
      var todo := TakeDue(now);
      SetClock(now);
      Replace(todo, old(members));
      forall t | t in members
        ensures t.pending == OnExpired <==> t.expires <= now
      {
        DueOrPending(t);
      }
    }

    // A linked timer is on the expired list exactly if it is due.
    lemma DueOrPending(t: Timeout)
      requires Valid() && t in members
      ensures t.pending == OnExpired <==> t.expires <= curtime
      ensures t.pending.OnWheel? <==> curtime < t.expires
    {
      hide Bit, Mask, ListAt;
      assert Linked(t);
      if t.pending.OnWheel? {
        var i := t.pending.index;
        PlacedIsFuture(t.expires, i / 64, i % 64, curtime);
      }
    }

    // `timeouts_step`: relative to the clock.
    method Step(elapsed: nat)
      requires Valid() && curtime + elapsed < TWO64
      modifies this`members, this`expired, this`curtime, wheel, pending, members`pending, members`timeouts,
               members`expires
      ensures Valid() && curtime == old(curtime) + elapsed && members == old(members)
      ensures forall t :: t in members ==> t.expires == old(t.expires)
      ensures forall t :: t in members ==> (t.pending == OnExpired <==> t.expires <= curtime)
    {
      Update(curtime + elapsed);
    }

    // ---- Handing out expired timers ----

    // A periodic timer is scheduled for its next firing.
    method ReAdd(to: Timeout)
      requires Valid() && to !in members && to.pending == Nowhere
      requires to.expires < TWO64 && 0 < to.interval
      modifies this`members, this`expired, wheel, pending, to`pending, to`timeouts, to`expires
      ensures Valid() && members == old(members) + {to}
      ensures to.expires == Readd(old(to.expires), to.interval, curtime)
      ensures if to.expires <= curtime then expired == old(expired) + [to] else expired == old(expired)
    {
      hide Bit, Placed, Linked, ListAt, Mask, HoldsRest, Without;
      var e := (to.expires + to.interval) % TWO64;
      if e <= curtime {
        var n := curtime - e;
        var r := n % to.interval;
        e := (curtime + (to.interval - r)) % TWO64;
      }
      ReaddFits(to.expires, to.interval, curtime);
      Sched(to, e);
    }

    // Takes the first expired timer off; a periodic one is started again for its next firing.
    method Get() returns (to: Timeout?)
      requires Valid()
      modifies this`members, this`expired, wheel, pending, expired`pending, expired`timeouts, expired`expires
      ensures Valid()
      ensures to == null <==> old(expired) == []
      ensures to == null ==> members == old(members) && expired == []
      ensures to != null ==>
                && to == old(expired)[0] && to in old(members)
                && members == (if to.periodic && to.interval > 0 then old(members) else old(members) - {to})
                && to.expires ==
                   (if to in members then Readd(old(to.expires), to.interval, curtime) else old(to.expires))
                && expired == old(expired)[1..] + (if to in members && to.expires <= curtime then [to] else [])
      ensures forall t :: t in old(members) && t != to ==> t.expires == old(t.expires) && t.pending == old(t.pending)
    {
      hide Bit, Placed, ListAt, Mask, Readd;
      if expired == [] {
        to := null;
      } else {
        to := expired[0];
        assert Linked(to);
        UnlinkExpired(to);
        if to.periodic && to.interval > 0 {
          ReAdd(to);
        }
      }
    }

    // A timer that is started again when it is handed out.
    ghost predicate Repeats(t: Timeout)
      reads t
    {
      t.periodic && t.interval > 0
    }

    // Where draining stands: `fired` has been handed out, the repeating ones among it are linked
    // again for their next firing, and nothing else has changed since `was` and `due` were taken.
    ghost predicate Drained(fired: seq<Timeout>, all: set<Timeout>, again: set<Timeout>, due: map<Timeout, nat>)
      reads this`members, this`curtime, all
    {
      && members <= all && due.Keys == all
      && (forall t :: t in all ==> (t !in members <==> t in fired && t !in again))
      && (forall t :: t in again ==> t in all && t.interval > 0 && due[t] <= curtime)
      && (forall t :: t in all ==>
            t.expires == if t in fired && t in again then NextFire(due[t], t.interval, curtime) else due[t])
    }

    // One turn of the draining loop.
    method DrainOne(ghost fired: seq<Timeout>, ghost all: set<Timeout>, ghost again: set<Timeout>,
                    ghost due: map<Timeout, nat>)
      returns (to: Timeout)
      requires Valid() && expired != [] && Drained(fired, all, again, due) && expired[0] !in fired
      requires expired[0] in again <==> expired[0].periodic && expired[0].interval > 0
      requires forall t :: t in again ==> t.interval < TWO64 && NextFire(due[t], t.interval, curtime) < TWO64
      modifies this`members, this`expired, wheel, pending, expired`pending, expired`timeouts, expired`expires
      ensures Valid() && to == old(expired)[0] && expired == old(expired)[1..]
      ensures Drained(fired + [to], all, again, due)
    {
      hide Bit, Placed, ListAt, Mask, Linked, Readd, NextFire, NoDup;
      ghost var t := expired[0];
      assert t in expired && t in members;
      if t in again {
        ReaddExact(t.expires, t.interval, curtime);
      }
      to := Get();
      forall u | u in all && u != to
        ensures u in fired + [to] <==> u in fired
      {
      }
    }

    // The caller's loop `while ((to = timeouts_get(T)))`. It ends even if every timer is periodic,
    // as long as the next firings fit in 64 bits, and hands every expired timer out once.
    method Drain() returns (fired: seq<Timeout>)
      requires Valid()
      requires forall t :: t in expired && Repeats(t) ==>
                 t.interval < TWO64 && t.expires <= curtime && NextFire(t.expires, t.interval, curtime) < TWO64
      modifies this`members, this`expired, wheel, pending, expired`pending, expired`timeouts, expired`expires
      ensures Valid() && expired == []
      ensures fired == old(expired)
      ensures members <= old(members)
      ensures forall t :: t in old(members) ==>
                (t !in members <==> t in old(expired) && !Repeats(t))
      ensures forall t :: t in old(members) ==>
                t.expires ==
                  if t in old(expired) && Repeats(t) then NextFire(old(t.expires), t.interval, curtime)
                  else old(t.expires)
    {
      hide Bit, Placed, ListAt, Mask, Linked, NextFire;
      ghost var was, all := expired, members;
      ghost var again := set t | t in all && t in was && Repeats(t);
      ghost var due := map t | t in members :: t.expires;
      fired := [];
      ExpiredNoDup();
      hide Valid, NoDup;
      while expired != []
        invariant Valid() && fired + expired == was
        invariant Drained(fired, all, again, due)
        decreases |expired|
      {
        FiredOnce(was, fired, expired);
        var to := DrainOne(fired, all, again, due);
        fired := fired + [to];
      }
    }

    static lemma FiredOnce(was: seq<Timeout>, fired: seq<Timeout>, left: seq<Timeout>)
      requires NoDup(was) && fired + left == was && left != []
      ensures left[0] !in fired && left[0] in was
      ensures forall i :: 0 <= i < |left| ==> left[i] == was[|fired| + i]
      ensures fired + [left[0]] + left[1..] == was
    {
      assert was[|fired|] == left[0];
      assert forall i :: 0 <= i < |fired| ==> fired[i] == was[i];
    }

    // ---- How long the caller may sleep ----

    // `timeout` is the least wait over the wheels below `w`.
    ghost predicate LeastWait(timeout: nat, w: nat)
      requires Shape() && w <= WHEEL_NUM && forall v :: 0 <= v < WHEEL_NUM ==> pending[v] < Pow2(64)
      reads this, pending
    {
      && 1 <= timeout < TWO64
      && (forall v :: 0 <= v < w && pending[v] != 0 ==> timeout <= WheelSoft(pending[v], v, curtime))
      && (timeout == TWO64 - 1 <==> forall v :: 0 <= v < w ==> pending[v] == 0)
      && (timeout == TWO64 - 1
          || exists v :: 0 <= v < w && pending[v] != 0 && timeout == WheelSoft(pending[v], v, curtime))
    }

    // The clock at which a timer on the wheels makes the caller wake up.
    ghost function Wake(t: Timeout): nat
      requires Valid() && t in members && t.pending.OnWheel?
      reads this, wheel, pending, members
    {
      assert Linked(t);
      PlacedAhead(t.expires, t.pending.index / 64, t.pending.index % 64, curtime);
      WakeAt(t.expires, t.pending.index / 64, curtime)
    }

    // It is never after the deadline, and up to the last wheel it is the deadline on wheel 0 and the
    // start of the deadline's unit above.
    lemma WakeIs(t: Timeout)
      requires Valid() && t in members && t.pending.OnWheel?
      ensures curtime < Wake(t) <= t.expires && t.pending.index < 256
      ensures var w := t.pending.index / 64;
        && (w == 0 ==> Wake(t) == t.expires)
        && (Wake(t) == Ticks(Unit(t.expires, w), w) <==> Unit(t.expires, w) <= Unit(curtime, w) + 64)
        && (w < WHEEL_NUM - 1 ==> Wake(t) == Ticks(Unit(t.expires, w), w))
    {
      hide Bit, ListAt, Mask, Placed, WakeAt;
      assert Linked(t);
      WakeAtIs(t.expires, t.pending.index / 64, t.pending.index % 64, curtime);
    }

    // The clock is not moved beyond what some timer on the wheels asks for, and exactly to that.
    ghost predicate Soonest(timeout: nat)
      requires Valid()
      reads this, wheel, pending, members
    {
      && (forall t :: t in members && t.pending.OnWheel? ==> curtime + timeout <= Wake(t))
      && exists t :: t in members && t.pending.OnWheel? && curtime + timeout == Wake(t)
    }

    // `timeouts_int`: the time until some wheel must be looked at. Never zero, and never beyond a
    // deadline.
    method SoftInterval() returns (timeout: nat)
      requires Valid()
      ensures 1 <= timeout < TWO64
      ensures forall t :: t in members && t.pending.OnWheel? ==> timeout <= t.expires - curtime
      ensures timeout == TWO64 - 1 <==> forall t :: t in members ==> !t.pending.OnWheel?
      ensures timeout != TWO64 - 1 ==> Soonest(timeout)
    {
      hide Bit, Linked, ListAt, Mask, Shl, Or, Ones, WheelSoft, Pow2, LeastWait, Soonest;
      timeout := TWO64 - 1;
      NoWait();
      var relmask := 0;
      var w := 0;
      while w < WHEEL_NUM
        invariant w <= WHEEL_NUM
        invariant relmask == Ones(w * WHEEL_BIT)
        invariant LeastWait(timeout, w)
      {
        timeout := LowerWait(w, relmask, timeout);
        NextRelmask(w * WHEEL_BIT);
        relmask := Or(Shl(relmask, WHEEL_BIT, 64), WHEEL_MASK);
        w := w + 1;
      }
      LeastIsSoonest(timeout);
    }

    lemma LeastIsSoonest(timeout: nat)
      requires Valid() && LeastWait(timeout, WHEEL_NUM)
      ensures 1 <= timeout < TWO64
      ensures forall t :: t in members && t.pending.OnWheel? ==> timeout <= t.expires - curtime
      ensures timeout == TWO64 - 1 <==> forall t :: t in members ==> !t.pending.OnWheel?
      ensures timeout != TWO64 - 1 ==> Soonest(timeout)
    {
      hide Bit, Linked, ListAt, Mask, WheelSoft, Pow2, Soonest, Wake;
      SoftBounds(timeout);
      if timeout != TWO64 - 1 {
        var v :| 0 <= v < WHEEL_NUM && pending[v] != 0 && timeout == WheelSoft(pending[v], v, curtime);
        SoftSoonest(timeout, v);
      }
    }

    lemma NoWait()
      requires Valid()
      ensures LeastWait(TWO64 - 1, 0) && Ones(0) == 0
    {
      assert Ones(0) == 0;
      hide Bit, Linked, ListAt, Mask, Pow2;
    }

    // One turn of the loop: wheel `w` may shorten the wait.
    method LowerWait(w: nat, relmask: nat, timeout: nat) returns (timeout': nat)
      requires Valid() && w < WHEEL_NUM && relmask == Ones(w * WHEEL_BIT) && LeastWait(timeout, w)
      ensures LeastWait(timeout', w + 1)
    {
      hide Bit, Linked, ListAt, Mask, Ones, WheelSoft, Pow2;
      timeout' := timeout;
      if pending[w] != 0 {
        var soft := SoftOf(w, relmask);
        timeout' := if soft < timeout then soft else timeout;
      }
    }

    // The wait for wheel `w` alone.
    method SoftOf(w: nat, relmask: nat) returns (soft: nat)
      requires Valid() && w < WHEEL_NUM && pending[w] != 0 && relmask == Ones(w * WHEEL_BIT)
      ensures soft == WheelSoft(pending[w], w, curtime) && 1 <= soft < TWO64 - 1
    {
      hide Bit, Linked, ListAt, Mask, Ahead, Shl, And, Ones, WheelSoft, Pow2;
      SoftTerm(w);
      var ticks := Shl(Ahead(pending[w], w, curtime) + (if w == 0 then 0 else 1), w * WHEEL_BIT, 64);
      soft := ticks - And(curtime, relmask);
    }

    lemma SoftTerm(w: nat)
      requires Valid() && w < WHEEL_NUM && pending[w] != 0
      ensures Shl(Ahead(pending[w], w, curtime) + (if w == 0 then 0 else 1), w * WHEEL_BIT, 64)
              - And(curtime, Ones(w * WHEEL_BIT)) == WheelSoft(pending[w], w, curtime)
      ensures 1 <= WheelSoft(pending[w], w, curtime) < TWO64 - 1
    {
      hide Bit, Linked, ListAt, Ahead, Shl, And, Ones, Pow2, Placed;
      AheadIs(pending[w], w, curtime);
      ShlGran(Ahead(pending[w], w, curtime) + (if w == 0 then 0 else 1), w);
      Progress(curtime, w);
      if w == 0 {
        FrontSlotEmpty();
      }
      SoftPositive(pending[w], w, curtime);
    }

    // No timer stands in the slot of the current tick.
    lemma FrontSlotEmpty()
      requires Valid()
      ensures !Bit(pending[0], curtime % 64)
    {
      hide Bit, Placed;
      var i := curtime % 64;
      assert Mask(i) && ListAt(i);
      if wheel[i] != [] {
        var t := wheel[i][0];
        assert t in wheel[i];
        assert Linked(t);
        CurrentSlotEmpty(t.expires, curtime);
      }
    }

    lemma SoftBounds(timeout: nat)
      requires Valid()
      requires forall v :: 0 <= v < WHEEL_NUM && pending[v] != 0 ==> timeout <= WheelSoft(pending[v], v, curtime)
      ensures forall t :: t in members && t.pending.OnWheel? ==> timeout <= t.expires - curtime
      ensures (forall v :: 0 <= v < WHEEL_NUM ==> pending[v] == 0) <==> forall t :: t in members ==> !t.pending.OnWheel?
    {
      hide Bit, Placed, WheelSoft, Pow2;
      forall t | t in members && t.pending.OnWheel?
        ensures timeout <= t.expires - curtime
        ensures !forall v :: 0 <= v < WHEEL_NUM ==> pending[v] == 0
      {
        assert Linked(t);
        var i := t.pending.index;
        assert Mask(i);
        ZeroBit(i % 64);
        SoftBelow(pending[i / 64], i / 64, curtime, t.expires, i % 64);
      }
      forall v | 0 <= v < WHEEL_NUM && pending[v] != 0
        ensures exists t :: t in members && t.pending.OnWheel?
      {
        var s := SomeBit(pending[v], 64);
        assert Mask(64 * v + s) && ListAt(64 * v + s);
        assert wheel[64 * v + s][0] in wheel[64 * v + s];
      }
    }

    lemma SoftSoonest(timeout: nat, v: nat)
      requires Valid()
      requires forall u :: 0 <= u < WHEEL_NUM && pending[u] != 0 ==> timeout <= WheelSoft(pending[u], u, curtime)
      requires v < WHEEL_NUM && pending[v] != 0 && timeout == WheelSoft(pending[v], v, curtime)
      ensures Soonest(timeout)
    {
      hide Bit, Placed, WheelSoft, Pow2, Ahead, WakeAt;
      forall t | t in members && t.pending.OnWheel?
        ensures curtime + timeout <= Wake(t)
      {
        assert Linked(t);
        var i := t.pending.index;
        assert Mask(i);
        ZeroBit(i % 64);
        SoftIsWake(pending[i / 64], i / 64, curtime, t.expires, i % 64);
      }
      var t := NextOnWheel(v);
      SoftIsWake(pending[v], v, curtime, t.expires, t.pending.index % 64);
      assert curtime + timeout == Wake(t);
    }

    // A timer in the slot the bits of a wheel lead to.
    lemma NextOnWheel(v: nat) returns (t: Timeout)
      requires Valid() && v < WHEEL_NUM && pending[v] != 0
      ensures t in members && t.pending.OnWheel? && t.pending.index < 256 && t.pending.index / 64 == v
      ensures t.pending.index % 64 == (Unit(curtime, v) + Ahead(pending[v], v, curtime)) % 64
      ensures Bit(pending[v], t.pending.index % 64)
      ensures Placed(t.expires, v, t.pending.index % 64, curtime)
    {
      hide Bit, Placed, Pow2, Ahead, Unit;
      AheadIs(pending[v], v, curtime);
      WrapSum(Unit(curtime, v), Ahead(pending[v], v, curtime));
      var i := 64 * v + (Unit(curtime, v) + Ahead(pending[v], v, curtime)) % 64;
      assert Mask(i) && ListAt(i);
      t := wheel[i][0];
      assert t in wheel[i] && Linked(t);
    }

    // `timeouts_timeout`: zero when something has expired already.
    method Timeout() returns (timeout: nat)
      requires Valid()
      ensures timeout == 0 <==> expired != []
      ensures forall t :: t in members ==> timeout <= (if t.expires > curtime then t.expires - curtime else 0)
      ensures expired == [] ==> (timeout == TWO64 - 1 <==> forall t :: t in members ==> !t.pending.OnWheel?)
      ensures expired == [] && timeout != TWO64 - 1 ==> Soonest(timeout)
    {
      hide Soonest;
      if expired != [] {
        timeout := 0;
      } else {
        timeout := SoftInterval();
        forall t | t in members
          ensures t.pending.OnWheel? && t.expires > curtime
        {
          assert Linked(t);
          DueOrPending(t);
        }
      }
    }

    // `timeouts_min`: the earliest timer on the wheels, by looking at all of them.
    method Min() returns (min: Timeout?)
      requires Valid()
      ensures min == null ==> forall t :: t in members ==> !t.pending.OnWheel?
      ensures min != null ==> min in members && min.pending.OnWheel?
      ensures min != null ==> forall t :: t in members && t.pending.OnWheel? ==> min.expires <= t.expires
    {
      hide Bit, Mask, Placed;
      min := null;
      for i := 0 to WHEEL_NUM * WHEEL_LEN
        invariant min != null ==> min in members && min.pending.OnWheel?
        invariant min == null ==> forall j :: 0 <= j < i ==> wheel[j] == []
        invariant min != null ==> forall j, k :: 0 <= j < i && 0 <= k < |wheel[j]| ==>
                  min.expires <= wheel[j][k].expires
      {
        min := MinOfSlot(i, min);
      }
      forall t | t in members && t.pending.OnWheel?
        ensures min != null && min.expires <= t.expires
      {
        assert Linked(t);
      }
    }

    method MinOfSlot(i: nat, least: Timeout?) returns (min: Timeout?)
      requires Valid() && i < 256
      requires least != null ==> least in members && least.pending.OnWheel?
      ensures min != null ==> min in members && min.pending.OnWheel?
      ensures min == null ==> least == null
      ensures min != null && least != null ==> min.expires <= least.expires
      ensures min == null ==> wheel[i] == []
      ensures min != null ==> forall k :: 0 <= k < |wheel[i]| ==> min.expires <= wheel[i][k].expires
    {
      hide Bit, Mask, Placed;
      assert ListAt(i);
      var list := wheel[i];
      min := least;
      for k := 0 to |list|
        invariant min != null ==> min in members && min.pending.OnWheel?
        invariant min == null ==> least == null
        invariant min != null && least != null ==> min.expires <= least.expires
        invariant min == null ==> k == 0
        invariant min != null ==> forall h :: 0 <= h < k ==> min.expires <= list[h].expires
      {
        var to := list[k];
        assert to in list;
        if min == null || to.expires < min.expires {
          min := to;
        }
      }
    }

    // `timeouts_check`: the structure's own consistency test never fails.
    method Check() returns (ok: bool)
      requires Valid()
      ensures ok
    {
      hide Bit, Mask, Placed, ListAt;
      var to := Min();
      if to != null {
        DueOrPending(to);
        if !(to.expires > curtime) {
          return false;
        }
        var timeout := SoftInterval();
        if !(timeout <= to.expires - curtime) {
          return false;
        }
        timeout := Timeout();
        if !(timeout <= to.expires - curtime) {
          return false;
        }
      } else {
        var timeout := Timeout();
        if expired != [] {
          if timeout != 0 {
            return false;
          }
        } else {
          if timeout != TWO64 - 1 {
            return false;
          }
        }
      }
      return true;
    }

    // ---- The caller's loop ----

    // Sleeps exactly as long as it is told to (but not past `stop`), then catches up.
    method Sleep(stop: nat)
      requires Valid() && expired == [] && curtime < stop < TWO64
      modifies this`members, this`expired, this`curtime, wheel, pending, members`pending, members`timeouts,
               members`expires
      ensures Valid() && old(curtime) < curtime <= stop && members == old(members)
      ensures forall t :: t in members ==> t.expires == old(t.expires)
      ensures forall t :: t in expired ==> t in members && t.expires == curtime
      ensures forall t :: t in members ==> t.expires >= curtime && (t.expires == curtime ==> t in expired)
    {
      hide Bit, Mask, Placed, ListAt;
      var timeout := Timeout();
      forall t | t in members
        ensures t.expires > curtime
      {
        assert Linked(t);
        DueOrPending(t);
      }
      Step(if timeout < stop - curtime then timeout else stop - curtime);
      forall t | t in expired
        ensures t.expires == curtime
      {
        assert Linked(t);
      }
      forall t | t in members && t.expires == curtime
        ensures t in expired
      {
        assert Linked(t);
      }
    }

    // No timer that repeats can outrun 64 bits before `stop`.
    ghost predicate RepeatsFit(stop: nat)
      reads this, members
    {
      forall t :: t in members && Repeats(t) ==> stop + t.interval < TWO64
    }

    // The timers of `batch`, each with its deadline, handed out at time `now`.
    static ghost function Log(batch: seq<Timeout>, due: map<Timeout, nat>, now: nat): seq<(Timeout, nat, nat)>
      requires forall t :: t in batch ==> t in due
    {
      seq(|batch|, i requires 0 <= i < |batch| => (batch[i], due[batch[i]], now))
    }

    // The log is about what was handed out, entry by entry.
    static ghost predicate LogOf(fired: seq<Timeout>, log: seq<(Timeout, nat, nat)>)
    {
      |log| == |fired| && forall i :: 0 <= i < |log| ==> log[i].0 == fired[i]
    }

    static lemma LogIs(batch: seq<Timeout>, due: map<Timeout, nat>, now: nat)
      requires forall u :: u in batch ==> u in due
      ensures forall t :: t in batch ==> (t, due[t], now) in Log(batch, due, now)
      ensures forall x :: x in Log(batch, due, now) ==> x.0 in batch && x.1 == due[x.0] && x.2 == now
      ensures LogOf(batch, Log(batch, due, now))
    {
      forall t | t in batch
        ensures (t, due[t], now) in Log(batch, due, now)
      {
        var i :| 0 <= i < |batch| && batch[i] == t;
        assert Log(batch, due, now)[i] == (t, due[t], now);
      }
    }

    static lemma LogNoDup(batch: seq<Timeout>, due: map<Timeout, nat>, now: nat)
      requires NoDup(batch) && forall u :: u in batch ==> u in due
      ensures NoDup(Log(batch, due, now))
    {
    }

    // The `k`-th firing of a timer first due at `e` and repeating every `i` ticks.
    static function Firing(e: nat, i: nat, k: nat): nat
    {
      if k == 0 then e else Firing(e, i, k - 1) + i
    }

    static lemma {:induction false} FiringMono(e: nat, i: nat, j: nat, k: nat)
      requires j <= k
      ensures Firing(e, i, j) <= Firing(e, i, k)
    {
      if j < k {
        FiringMono(e, i, j, k - 1);
      }
    }

    // The log holds the first `n` firings of `t` and no other of its, and `next` is the one after
    // them.
    static ghost predicate Served(t: Timeout, e: nat, i: nat, next: nat, n: nat, log: seq<(Timeout, nat, nat)>)
    {
      && next == Firing(e, i, n)
      && (forall k: nat :: k < n ==> (t, Firing(e, i, k), Firing(e, i, k)) in log)
      && (forall x :: x in log && x.0 == t ==> exists k: nat :: k < n && x.1 == Firing(e, i, k))
    }

    static lemma ServedNext(t: Timeout, e: nat, i: nat, next: nat, n: nat, log: seq<(Timeout, nat, nat)>,
                            more: seq<(Timeout, nat, nat)>)
      requires Served(t, e, i, next, n, log)
      requires (t, next, next) in more && forall x :: x in more && x.0 == t ==> x.1 == next
      ensures Served(t, e, i, next + i, n + 1, log + more)
    {
      forall x | x in log + more && x.0 == t
        ensures exists k: nat :: k < n + 1 && x.1 == Firing(e, i, k)
      {
        if x in log {
          var k: nat :| k < n && x.1 == Firing(e, i, k);
        } else {
          assert x.1 == Firing(e, i, n);
        }
      }
    }

    static lemma ServedSame(t: Timeout, e: nat, i: nat, next: nat, n: nat, log: seq<(Timeout, nat, nat)>,
                            more: seq<(Timeout, nat, nat)>)
      requires Served(t, e, i, next, n, log) && forall x :: x in more ==> x.0 != t
      ensures Served(t, e, i, next, n, log + more)
    {
      forall x | x in log + more && x.0 == t
        ensures exists k: nat :: k < n && x.1 == Firing(e, i, k)
      {
        assert x in log;
      }
    }

    // When the firing after the first `n` is beyond `stop`, the log holds all firings up to `stop`.
    static lemma ServedAll(t: Timeout, e: nat, i: nat, next: nat, n: nat, log: seq<(Timeout, nat, nat)>, stop: nat,
                           k: nat)
      requires Served(t, e, i, next, n, log) && next > stop && Firing(e, i, k) <= stop
      ensures (t, Firing(e, i, k), Firing(e, i, k)) in log
    {
      if n <= k {
        FiringMono(e, i, n, k);
      }
    }

    // Where the caller's loop stands. `was` has the deadlines at the start, `gap` the intervals of
    // the repeating timers (0 for the others), `due` the deadlines now: the log has each firing
    // since `start` once and at its time, a one-shot timer waits or has been logged at its
    // deadline, a repeating one waits for the firing after the logged ones.
    static ghost predicate RunsOk(was: map<Timeout, nat>, gap: map<Timeout, nat>, due: map<Timeout, nat>,
                                  all: set<Timeout>, count: map<Timeout, nat>,
                                  log: seq<(Timeout, nat, nat)>, start: nat, now: nat)
    {
      && all <= was.Keys && was.Keys == gap.Keys == due.Keys == count.Keys
      && NoDup(log)
      && (forall x :: x in log ==> x.1 == x.2 && start < x.2 <= now && x.0 in was)
      && (forall t :: t in was ==> Stands(t, was[t], gap[t], due[t], t in all, count[t], log))
    }

    // Where one timer stands that was first due at `e` and repeats every `i` ticks (0 if it does
    // not).
    static ghost predicate Stands(t: Timeout, e: nat, i: nat, due: nat, waits: bool, n: nat,
                                  log: seq<(Timeout, nat, nat)>)
    {
      if i > 0 then waits && Served(t, e, i, due, n, log) else due == e && Logged(t, e, waits, log)
    }

    // A one-shot timer is in the log at its deadline only, and once it has gone.
    static ghost predicate Logged(t: Timeout, e: nat, waits: bool, log: seq<(Timeout, nat, nat)>)
    {
      (forall x :: x in log && x.0 == t ==> x.1 == e && !waits) && (!waits ==> (t, e, e) in log)
    }

    ghost function Dues(was: set<Timeout>): map<Timeout, nat>
      reads was
    {
      map t | t in was :: t.expires
    }

    ghost function Gaps(was: set<Timeout>): map<Timeout, nat>
      reads was
    {
      map t | t in was :: if Repeats(t) then t.interval else 0
    }

    static lemma RunsMore(was: map<Timeout, nat>, gap: map<Timeout, nat>, due: map<Timeout, nat>, all: set<Timeout>,
                          count: map<Timeout, nat>, log: seq<(Timeout, nat, nat)>, start: nat, now: nat,
                          due': map<Timeout, nat>, all': set<Timeout>, more: seq<(Timeout, nat, nat)>, now': nat)
      returns (count': map<Timeout, nat>)
      requires RunsOk(was, gap, due, all, count, log, start, now) && start <= now < now'
      requires all' <= all && due'.Keys == due.Keys && NoDup(more)
      requires forall x :: x in more ==> x.1 == x.2 == now' && x.0 in all && due[x.0] == now'
      requires forall t :: t in all && due[t] == now' ==> (t, now', now') in more
      requires forall t :: t in was && (t !in all || due[t] != now') ==> due'[t] == due[t] && (t in all' <==> t in all)
      requires forall t :: t in all && due[t] == now' ==>
                 due'[t] == due[t] + gap[t] && (t in all' <==> gap[t] > 0)
      ensures RunsOk(was, gap, due', all', count', log + more, start, now')
    {
      hide NoDup, Served, Logged;
      NoDupConcat(log, more);
      count' := map t | t in was :: if due[t] == now' then count[t] + 1 else count[t];
      forall t | t in was
        ensures Stands(t, was[t], gap[t], due'[t], t in all', count'[t], log + more)
      {
        if gap[t] > 0 {
          ServedMore(t, was[t], gap[t], due[t], due'[t], count[t], log, more, now');
        } else {
          LoggedMore(t, was[t], t in all, t in all', log, more, now');
        }
      }
    }

    static lemma LoggedMore(t: Timeout, e: nat, waits: bool, waits': bool, log: seq<(Timeout, nat, nat)>,
                            more: seq<(Timeout, nat, nat)>, now: nat)
      requires Logged(t, e, waits, log)
      requires waits' == (waits && e != now)
      requires forall x :: x in more && x.0 == t ==> waits && x.1 == x.2 == now == e
      requires waits && e == now ==> (t, now, now) in more
      ensures Logged(t, e, waits', log + more)
    {
    }

    static lemma ServedMore(t: Timeout, e: nat, i: nat, due: nat, next: nat, n: nat, log: seq<(Timeout, nat, nat)>,
                            more: seq<(Timeout, nat, nat)>, now: nat)
      requires Served(t, e, i, due, n, log) && next == if due == now then due + i else due
      requires due == now ==> (t, now, now) in more
      requires forall x :: x in more && x.0 == t ==> x.1 == now == due
      ensures Served(t, e, i, next, if due == now then n + 1 else n, log + more)
    {
      hide Served;
      if due == now {
        ServedNext(t, e, i, due, n, log, more);
      } else {
        ServedSame(t, e, i, due, n, log, more);
      }
    }

    // `v` is a firing of a timer first due at `e` that repeats every `i` ticks, or of a one-shot
    // one if `i` is 0.
    static ghost predicate IsFiring(e: nat, i: nat, v: nat)
    {
      exists k: nat :: v == Firing(e, i, k)
    }

    // The log is exactly the firings after `start` and up to `stop`, each once and at its time, of
    // timers with deadlines `was` and intervals `gap`.
    static ghost predicate Complete(was: map<Timeout, nat>, gap: map<Timeout, nat>, log: seq<(Timeout, nat, nat)>,
                                    start: nat, stop: nat)
      requires was.Keys == gap.Keys
    {
      && NoDup(log)
      && (forall x :: x in log ==>
            x.1 == x.2 && start < x.2 <= stop && x.0 in was && IsFiring(was[x.0], gap[x.0], x.1))
      && (forall t, k: nat :: t in was && Firing(was[t], gap[t], k) <= stop ==>
            (t, Firing(was[t], gap[t], k), Firing(was[t], gap[t], k)) in log)
    }

    // Sleep, update, drain, until `stop`. What is handed out are exactly the firings up to then,
    // each at its time: of a one-shot timer its deadline, after which it is gone; of a repeating
    // one its deadline and every whole number of intervals after it, and it stays, waiting for one
    // of those beyond `stop`.
    method RunUntil(stop: nat) returns (fired: seq<Timeout>, ghost log: seq<(Timeout, nat, nat)>)
      requires Valid() && expired == [] && curtime <= stop < TWO64
      requires RepeatsFit(stop)
      modifies this`members, this`expired, this`curtime, wheel, pending, members`pending, members`timeouts,
               members`expires
      ensures Valid() && curtime == stop && expired == []
      ensures LogOf(fired, log)
      ensures Complete(old(Dues(members)), Gaps(old(members)), log, old(curtime), stop)
      ensures members <= old(members)
      ensures forall t :: t in old(members) ==> (t in members <==> Repeats(t) || old(t.expires) > stop)
      ensures forall t :: t in members ==>
                t.expires > stop && IsFiring(old(t.expires), if Repeats(t) then t.interval else 0, t.expires)
    {
      hide Bit, Mask, Placed, ListAt, RunsOk, IsFiring, Complete, Valid;
      fired, log := [], [];
      ghost var all, start := members, curtime;
      ghost var was, gap := Dues(all), Gaps(all);
      ghost var count := RunsStart(was, gap, all, start);
      while curtime < stop
        invariant Valid() && expired == [] && curtime <= stop && RepeatsFit(stop)
        invariant members <= all && Gaps(all) == gap
        invariant RunsOk(was, gap, Dues(all), members, count, log, start, curtime) && LogOf(fired, log)
      {
        var batch;
        batch, log, count := RunOnce(stop, was, gap, all, count, fired, log, start);
        fired := fired + batch;
      }
      NoneLeft();
      RunsEnd(was, gap, Dues(all), members, count, log, start, stop);
    }

    lemma NoneLeft()
      requires Valid() && expired == []
      ensures forall t :: t in members ==> t.expires > curtime
    {
      forall t | t in members
        ensures t.expires > curtime
      {
        assert Linked(t);
        DueOrPending(t);
      }
    }

    // One turn of the caller's loop and what it adds to the log.
    method RunOnce(stop: nat, ghost was: map<Timeout, nat>, ghost gap: map<Timeout, nat>, ghost all: set<Timeout>,
                   ghost count: map<Timeout, nat>, ghost fired: seq<Timeout>, ghost log: seq<(Timeout, nat, nat)>,
                   ghost start: nat)
      returns (batch: seq<Timeout>, ghost log': seq<(Timeout, nat, nat)>, ghost count': map<Timeout, nat>)
      requires LogOf(fired, log)
      requires Valid() && expired == [] && start <= curtime < stop < TWO64 && RepeatsFit(stop)
      requires members <= all && Gaps(all) == gap && RunsOk(was, gap, Dues(all), members, count, log, start, curtime)
      modifies this`members, this`expired, this`curtime, wheel, pending, members`pending, members`timeouts,
               members`expires
      ensures Valid() && expired == [] && old(curtime) < curtime <= stop && RepeatsFit(stop)
      ensures members <= old(members) && Gaps(all) == gap
      ensures RunsOk(was, gap, Dues(all), members, count', log', start, curtime) && LogOf(fired + batch, log')
    {
      hide Bit, Mask, Placed, ListAt, RunsOk, Valid, LogOf;
      ghost var due, left, now := Dues(all), members, curtime;
      RunsKeys(was, gap, due, members, count, log, start, now);
      ghost var more;
      batch, more := Turn(stop);
      LogOfMore(fired, log, batch, more);
      count' := RunsMore(was, gap, due, left, count, log, start, now, Dues(all), members, more, curtime);
      log' := log + more;
    }

    static lemma LogOfMore(fired: seq<Timeout>, log: seq<(Timeout, nat, nat)>, batch: seq<Timeout>,
                           more: seq<(Timeout, nat, nat)>)
      requires LogOf(fired, log) && LogOf(batch, more)
      ensures LogOf(fired + batch, log + more)
    {
    }

    static lemma RunsKeys(was: map<Timeout, nat>, gap: map<Timeout, nat>, due: map<Timeout, nat>, all: set<Timeout>,
                          count: map<Timeout, nat>, log: seq<(Timeout, nat, nat)>, start: nat, now: nat)
      requires RunsOk(was, gap, due, all, count, log, start, now)
      ensures was.Keys == gap.Keys == due.Keys && all <= was.Keys
    {
    }

    static lemma RunsStart(was: map<Timeout, nat>, gap: map<Timeout, nat>, all: set<Timeout>, start: nat)
      returns (count: map<Timeout, nat>)
      requires was.Keys == gap.Keys == all
      ensures RunsOk(was, gap, was, all, count, [], start, start)
    {
      count := map t | t in was :: 0;
    }

    // What the loop's invariant says when every deadline left is beyond `stop`.
    static lemma RunsEnd(was: map<Timeout, nat>, gap: map<Timeout, nat>, due: map<Timeout, nat>, all: set<Timeout>,
                         count: map<Timeout, nat>, log: seq<(Timeout, nat, nat)>, start: nat, stop: nat)
      requires RunsOk(was, gap, due, all, count, log, start, stop)
      requires forall t :: t in all ==> due[t] > stop
      ensures Complete(was, gap, log, start, stop)
      ensures forall t :: t in was ==> (t in all <==> gap[t] > 0 || was[t] > stop)
      ensures forall t :: t in all ==> IsFiring(was[t], gap[t], due[t])
    {
      hide NoDup, Served, Logged, Firing, IsFiring;
      forall t | t in was
        ensures t in all <==> gap[t] > 0 || was[t] > stop
        ensures t in all ==> IsFiring(was[t], gap[t], due[t])
      {
        OneEnds(t, was[t], gap[t], due[t], t in all, count[t], log, stop);
      }
      forall t, k: nat | t in was && Firing(was[t], gap[t], k) <= stop
        ensures (t, Firing(was[t], gap[t], k), Firing(was[t], gap[t], k)) in log
      {
        OneFires(t, was[t], gap[t], due[t], t in all, count[t], log, stop, k);
      }
      forall x | x in log
        ensures IsFiring(was[x.0], gap[x.0], x.1)
      {
        OneLogged(x, was[x.0], gap[x.0], due[x.0], x.0 in all, count[x.0], log);
      }
    }

    static lemma OneEnds(t: Timeout, e: nat, i: nat, due: nat, waits: bool, n: nat, log: seq<(Timeout, nat, nat)>,
                         stop: nat)
      requires Stands(t, e, i, due, waits, n, log) && (waits ==> due > stop)
      requires forall x :: x in log ==> x.2 <= stop && x.1 == x.2
      ensures waits <==> i > 0 || e > stop
      ensures waits ==> IsFiring(e, i, due)
    {
      assert Firing(e, i, 0) == e;
    }

    static lemma OneFires(t: Timeout, e: nat, i: nat, due: nat, waits: bool, n: nat, log: seq<(Timeout, nat, nat)>,
                          stop: nat, k: nat)
      requires Stands(t, e, i, due, waits, n, log) && (waits ==> due > stop) && Firing(e, i, k) <= stop
      ensures (t, Firing(e, i, k), Firing(e, i, k)) in log
    {
      if i > 0 {
        ServedAll(t, e, i, due, n, log, stop, k);
      } else {
        FiringOnce(e, k);
      }
    }

    static lemma {:induction false} FiringOnce(e: nat, k: nat)
      ensures Firing(e, 0, k) == e
    {
      if k > 0 {
        FiringOnce(e, k - 1);
      }
    }

    static lemma OneLogged(x: (Timeout, nat, nat), e: nat, i: nat, due: nat, waits: bool, n: nat,
                           log: seq<(Timeout, nat, nat)>)
      requires x in log && Stands(x.0, e, i, due, waits, n, log)
      ensures IsFiring(e, i, x.1)
    {
      if i == 0 {
        assert Firing(e, 0, 0) == e;
      }
    }

    // One turn of the caller's loop: whoever is due at the new time is logged; of those, one-shot
    // timers leave and repeating ones move on by one interval.
    method Turn(stop: nat) returns (fired: seq<Timeout>, ghost more: seq<(Timeout, nat, nat)>)
      requires Valid() && expired == [] && curtime < stop < TWO64
      requires RepeatsFit(stop)
      modifies this`members, this`expired, this`curtime, wheel, pending, members`pending, members`timeouts,
               members`expires
      ensures Valid() && expired == [] && old(curtime) < curtime <= stop
      ensures members <= old(members) && RepeatsFit(stop)
      ensures NoDup(more) && LogOf(fired, more)
      ensures forall x :: x in more ==> x.1 == x.2 == curtime && x.0 in old(members) && old(x.0.expires) == curtime
      ensures forall t :: t in old(members) && old(t.expires) == curtime ==> (t, curtime, curtime) in more
      ensures forall t :: t in old(members) && !Repeats(t) ==>
                t.expires == old(t.expires) && (t in members <==> old(t.expires) != curtime)
      ensures forall t :: t in old(members) && Repeats(t) ==>
                t in members && t.expires ==
                  if old(t.expires) == curtime then old(t.expires) + t.interval else old(t.expires)
    {
      hide Bit, Mask, Placed, ListAt, NoDup, NextFire, Log, Valid;
      Sleep(stop);
      ghost var due := map t | t in members :: t.expires;
      more := Log(expired, due, curtime);
      ExpiredNoDup();
      LogNoDup(expired, due, curtime);
      LogIs(expired, due, curtime);
      forall t | t in expired && Repeats(t)
        ensures NextFire(t.expires, t.interval, curtime) == t.expires + t.interval
      {
        FiresNext(t.expires, t.interval);
      }
      fired := Drain();
    }

    // Whoever is due right now fires next after one interval.
    static lemma FiresNext(e: nat, i: nat)
      requires i > 0
      ensures NextFire(e, i, e) == e + i
    {
    }

    lemma ExpiredNoDup()
      requires Valid()
      ensures NoDup(expired)
    {
    }
  }
}
