// struct timer_base of linux_kern_timer.c: the functions that change it in place, proved against
// the values of KernelWheel.
module KernelBase {
  import opened Granules
  import opened KernelWheel

  class TimerBase {
    var clk: nat
    var pending: array<bool>
    var vectors: array<seq<Entry>>

    // A bit is set exactly for the buckets that hold timers.
    ghost predicate Valid()
      reads this, pending, vectors
    {
      && pending.Length == vectors.Length == SIZE
      && forall i :: 0 <= i < SIZE ==> (pending[i] <==> vectors[i] != [])
    }

    ghost function View(): Wheel
      requires Valid()
      reads this, pending, vectors
    {
      Wheel(clk, vectors[..])
    }

    constructor (now: nat)
      ensures Valid() && fresh(pending) && fresh(vectors)
      ensures clk == now && forall i :: 0 <= i < SIZE ==> vectors[i] == []
    {
      clk := now;
      pending := new bool[SIZE](_ => false);
      vectors := new seq<Entry>[SIZE](_ => []);
    }

    // __internal_add_timer and enqueue_timer
    method InternalAddTimer(id: nat, expires: nat)
      requires Valid()
      modifies pending, vectors
      ensures Valid() && View() == Added(old(View()), id, expires)
      ensures Links(old(View()), View(), CalcWheelIndex(expires, clk), Entry(id, expires, clk))
    {
      AddedLinks(View(), id, expires);
      IndexInRange(expires, clk);
      var idx := CalcWheelIndex(expires, clk);
      vectors[idx] := [Entry(id, expires, clk)] + vectors[idx];
      pending[idx] := true;
      hide CalcWheelIndex;
    }

    // detach_if_pending for the k-th timer of bucket idx
    method DetachTimer(idx: nat, k: nat)
      requires Valid() && idx < SIZE && k < |vectors[idx]|
      modifies pending, vectors
      ensures Valid() && View() == Removed(old(View()), idx, k)
      ensures Unlinks(old(View()), View(), idx, k)
    {
      RemovedUnlinks(View(), idx, k);
      if |vectors[idx]| == 1 {
        pending[idx] := false;
      }
      vectors[idx] := vectors[idx][..k] + vectors[idx][k + 1..];
    }

    // find_next_bit: the first set bit from start on, or end.
    method FindNextBit(start: nat, end: nat) returns (pos: nat)
      requires Valid() && start <= end <= SIZE
      ensures start <= pos <= end
      ensures forall i :: start <= i < pos ==> !pending[i]
      ensures pos < end ==> pending[pos]
    {
      pos := start;
      while pos < end && !pending[pos]
        invariant start <= pos <= end
        invariant forall i :: start <= i < pos ==> !pending[i]
      {
        pos := pos + 1;
      }
    }

    // next_pending_bucket, for the level that starts at offset
    method NextPendingBucket(ghost l: nat, offset: nat, c: nat) returns (pos: int)
      requires Valid() && l < DEPTH && offset == 64 * l && c < 64
      ensures FirstPending(View(), l, c, pos)
    {
      hide View, Valid, Bit, FirstPending;
      var start, end := offset + c, offset + 64;
      ghost var w := View();
      BitsShow(l);
      var first := FindNextBit(start, end);
      if first < end {
        pos := first - start;
        FirstPendingAt(w, l, c, first - offset);
      } else {
        first := FindNextBit(offset, start);
        pos := if first < start then first + 64 - start else -1;
        if pos >= 0 { FirstPendingAt(w, l, c, first - offset); } else { NonePending(w, l, c); }
      }
    }

    lemma BitsShow(l: nat)
      requires Valid() && l < DEPTH
      ensures forall i :: 0 <= i < 64 ==> (Bit(View(), l, i) <==> pending[64 * l + i])
    {
    }

    // __next_timer_interrupt
    method NextTimerInterrupt() returns (next: nat)
      requires Valid()
      ensures IsNext(View(), next)
    {
      next := clk + MAX_DELTA;
      var c, l, offset := clk, 0, 0;
      while l < DEPTH
        invariant 0 <= l <= DEPTH && offset == 64 * l
        invariant c == Ceil(clk, l) && NextOf(View(), l, next)
      {
        var pos := NextPendingBucket(l, offset, c % 64);
        NextOfLevel(View(), l, next, pos);
        if pos >= 0 {
          var tmp := Up(c + pos, l);
          if tmp < next { next := tmp; }
        }
        var adj := if c % 8 != 0 then 1 else 0;
        c := c / 8 + adj;
        l, offset := l + 1, offset + 64;
      }
      NextOfIsNext(View(), next);
    }

    // __test_and_clear_bit and hlist_move_list
    method TakeBucket(idx: nat) returns (list: seq<Entry>)
      requires Valid() && idx < SIZE
      modifies pending, vectors
      ensures Valid() && View() == old(View()).(vec := old(View()).vec[idx := []])
      ensures list == old(View()).vec[idx]
    {
      list := [];
      if pending[idx] {
        list := vectors[idx];
        pending[idx] := false;
        vectors[idx] := [];
      }
      assert vectors[..] == old(vectors[..])[idx := []];
    }

    // __collect_expired_timers
    method CollectBuckets() returns (heads: seq<seq<Entry>>)
      requires Valid()
      modifies pending, vectors
      ensures Valid() && View() == Collected(old(View())) && heads == Heads(old(View()))
    {
      ghost var w := View();
      assert w.clk == clk;
      hide Collecting, Heads, Collected, Valid, View, Slot, Whole, NextLevel, BucketOf;
      CollectingBegins(w);
      var c: nat, i: nat, more := clk, 0, true;
      heads := [];
      while i < DEPTH && more
        invariant i <= DEPTH && Valid()
        invariant Collecting(w, View(), i, c, more, heads)
      {
        CollectLevel(w, View(), i, c, heads);
        var list := TakeBucket(BucketOf(i, Slot(c)));
        if list != [] {
          heads := heads + [list];
        }
        more := Whole(c);
        c := NextLevel(c);
        i := i + 1;
      }
      CollectingEnds(w, View(), i, c, more, heads);
    }

    // collect_expired_timers with NOHZ, and the clock's increment after it in __run_timers: one
    // pass up to the callbacks, whatever those do afterwards.
    method CollectExpired(now: nat) returns (heads: seq<seq<Entry>>, next: nat)
      requires Valid() && clk <= now
      modifies this`clk, pending, vectors
      ensures Valid() && old(clk) < clk <= now + 1
      ensures now - old(clk) > 2 ==> IsNext(old(View()), next)
      ensures NohzEvents(old(View()), now, next) == if heads == [] then [] else [Event(clk - 1, heads)]
      ensures forall h :: NohzPass(old(View()), now, next, h) == After(View(), heads, h)
    {
      hide Collected, Heads, IsNext;
      ghost var w := View();
      var idle := false;
      next := clk;
      if now - clk > 2 {
        next := NextTimerInterrupt();
        idle := next > now;
        clk := if idle then now else next;
      }
      heads := [];
      if !idle {
        heads := CollectBuckets();
      }
      clk := clk + 1;
    }
  }

  // The wheel after the callbacks of heads, if there are any.
  function After(w: Wheel, heads: seq<seq<Entry>>, h: Callbacks): Wheel
  {
    if heads == [] then w else w.(vec := h(w, heads))
  }
}
