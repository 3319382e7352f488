// The Lawn timer store: src/lawn2.c. Timers are intrusive nodes on doubly linked per-TTL queues;
// the queues hang off an open-addressing table; the non-empty buckets are threaded on a second
// doubly linked list.
module Lawn2 {
  import opened Words
  import opened Lists
  import opened LawnView

  const GOLDEN: nat := 0x9E37_79B9_7F4A_7C15

  class Timer {
    var ttl: nat
    var expiration: nat
    var next: Timer?
    var prev: Timer?
    var inStore: bool
    const id: nat
    ghost var owner: Blade?     // the bucket whose queue it is on

    constructor (id: nat)
      ensures this.id == id && !inStore && next == null && prev == null
    {
      this.id := id;
      ttl, expiration, next, prev, inStore, owner := 0, 0, null, null, false, null;
    }
  }

  // One bucket: the queue of the timers started with one TTL.
  class Blade {
    var ttl: nat
    var used: bool
    var head: Timer?
    var tail: Timer?
    var livePrev: Blade?
    var liveNext: Blade?
    ghost var queue: seq<Timer>
    ghost var at: nat           // its place in the table

    constructor (ghost at: nat)
      ensures !used && ttl == 0 && head == null && tail == null && livePrev == null && liveNext == null
      ensures queue == [] && this.at == at
    {
      ttl, used, head, tail, livePrev, liveNext, queue := 0, false, null, null, null, null, [];
      this.at := at;
    }

    // The timers of `queue` are linked both ways, in order, between `head` and `tail`.
    ghost predicate Linked()
      reads `head, `tail, `queue, queue`next, queue`prev
    {
      && NoDup(queue)
      && (queue == [] ==> head == null && tail == null)
      && (queue != [] ==>
            && head == queue[0] && head.prev == null
            && tail == queue[|queue| - 1] && tail.next == null)
      && (forall i {:trigger queue[i].next} :: 0 <= i < |queue| - 1 ==> queue[i].next == queue[i + 1])
      && (forall i {:trigger queue[i].prev} :: 1 <= i < |queue| ==> queue[i].prev == queue[i - 1])
    }

    // Links that have not been touched still hold.
    twostate lemma StillLinked()
      requires old(Linked()) && unchanged(`head, `tail, `queue)
      requires forall t :: t in queue ==> t.next == old(t.next) && t.prev == old(t.prev)
      ensures Linked()
    {
    }

    lemma HeadIs()
      requires Linked()
      ensures head == null <==> queue == []
      ensures queue != [] ==> head == queue[0]
    {
    }

    lemma LinkedNoDup()
      requires Linked()
      ensures NoDup(queue)
    {
    }

    lemma EmptyLinked()
      requires queue == [] && head == null && tail == null
      ensures Linked()
    {
    }

    // Links a timer in after the last one.
    method Append(n: Timer)
      requires Linked() && n !in queue
      modifies this`head, this`tail, this`queue, queue`next, n`next, n`prev
      ensures Linked() && queue == old(queue) + [n]
    {
      n.next := null;
      n.prev := tail;
      if tail != null {
        tail.next := n;
      } else {
        head := n;
      }
      tail := n;
      queue := queue + [n];
    }

    // Sets a timer up for this bucket and links it in.
    method Adopt(n: Timer, ttl: nat, expiration: nat)
      requires Linked() && n !in queue
      modifies `head, `tail, `queue, queue`next, n
      ensures Linked() && queue == old(queue) + [n]
      ensures n.ttl == ttl && n.expiration == expiration && n.inStore && n.owner == this
    {
      n.ttl := ttl;
      n.expiration := expiration;
      n.inStore := true;
      n.owner := this;
      Append(n);
    }

    // Takes the queue of another bucket over.
    method TakeOver(o: Blade)
      requires o.Linked()
      modifies `head, `tail, `queue, o.queue`owner
      ensures Linked() && queue == o.queue && (head == null <==> queue == [])
      ensures forall t :: t in queue ==> t.owner == this
    {
      head, tail, queue := o.head, o.tail, o.queue;
      forall t | t in o.queue {
        t.owner := this;
      }
    }

    // Unlinks a timer from anywhere in the queue.
    method Unlink(n: Timer)
      requires Linked() && n in queue
      modifies this`head, this`tail, this`queue, queue`next, queue`prev
      ensures Linked() && queue == Without(old(queue), n)
      ensures n.next == null && n.prev == null
    {
      hide NoDup, CutOut, Without;
      ghost var k :| 0 <= k < |queue| && queue[k] == n;
      ghost var was := queue;
      CutOutIs(was, k);
      Differ(was, k);
      Differ(was, k - 1);
      Differ(was, k + 1);
      assert k > 0 ==> n.prev == was[k - 1];
      assert k < |was| - 1 ==> n.next == was[k + 1];
      if n.prev != null {
        n.prev.next := n.next;
      } else {
        head := n.next;
      }
      if n.next != null {
        n.next.prev := n.prev;
      } else {
        tail := n.prev;
      }
      n.next, n.prev := null, null;
      queue := CutOut(was, k);
    }

    // Unlinks the first timer.
    method PopHead() returns (n: Timer)
      requires Linked() && queue != []
      modifies this`head, this`tail, this`queue, queue`next, queue`prev
      ensures Linked() && n == old(queue)[0] && queue == old(queue)[1..]
      ensures n.next == null && n.prev == null
    {
      n := head;
      assert |queue| > 1 ==> n.next == queue[1];
      head := n.next;
      if head != null {
        head.prev := null;
      } else {
        tail := null;
      }
      n.next, n.prev := null, null;
      queue := queue[1..];
    }
  }

  // The slot a TTL hashes to in a table of `2^bits` slots.
  function Home(ttl: nat, bits: nat): (h: nat)
    requires bits <= 64
    ensures h < Pow2(bits)
  {
    Pow2Values();
    ShrHigh(ttl * GOLDEN % TWO64, 64, bits);
    Shr(ttl * GOLDEN % TWO64, 64 - bits)
  }

  // How many steps a probe from `h` takes to reach slot `j`.
  function Steps(h: nat, j: nat, cap: nat): int
  {
    if h <= j then j - h else j - h + cap
  }

  class Lawn {
    var now: nat
    var tab: array<Blade>
    var cap: nat
    var bits: nat
    var count: nat
    var live: nat
    var nextExpiration: nat
    var liveHead: Blade?

    ghost var blades: set<Blade>         // the slots of the table
    ghost var bucket: map<nat, Blade>    // the used ones, by TTL
    ghost var order: seq<Blade>          // the live list
    ghost var timers: set<Timer>         // the timers in the store

    // ---- The live list ----

    // `order` is linked both ways from `liveHead`.
    ghost predicate Threaded()
      reads `liveHead, `order, order`livePrev, order`liveNext
    {
      && NoDup(order)
      && (order == [] ==> liveHead == null)
      && (order != [] ==>
            && liveHead == order[0] && liveHead.livePrev == null
            && order[|order| - 1].liveNext == null)
      && (forall i {:trigger order[i].liveNext} :: 0 <= i < |order| - 1 ==> order[i].liveNext == order[i + 1])
      && (forall i {:trigger order[i].livePrev} :: 1 <= i < |order| ==> order[i].livePrev == order[i - 1])
    }

    // Puts a bucket at the front of the live list.
    method LiveLink(b: Blade)
      requires Threaded() && b !in order
      modifies this`liveHead, this`order, b`livePrev, b`liveNext, order`livePrev
      ensures Threaded() && order == [b] + old(order)
    {
      b.livePrev := null;
      b.liveNext := liveHead;
      if liveHead != null {
        liveHead.livePrev := b;
      }
      liveHead := b;
      order := [b] + order;
    }

    // Takes a bucket out of the live list.
    method LiveUnlink(b: Blade)
      requires Threaded() && b in order
      modifies this`liveHead, this`order, order`livePrev, order`liveNext
      ensures Threaded() && order == Without(old(order), b)
    {
      hide NoDup, CutOut, Without;
      ghost var k :| 0 <= k < |order| && order[k] == b;
      ghost var was := order;
      CutOutIs(was, k);
      Differ(was, k);
      Differ(was, k - 1);
      Differ(was, k + 1);
      assert k > 0 ==> b.livePrev == was[k - 1];
      assert k < |was| - 1 ==> b.liveNext == was[k + 1];
      if b.livePrev != null {
        b.livePrev.liveNext := b.liveNext;
      } else {
        liveHead := b.liveNext;
      }
      if b.liveNext != null {
        b.liveNext.livePrev := b.livePrev;
      }
      b.livePrev, b.liveNext := null, null;
      order := CutOut(was, k);
    }

    // ---- The table ----

    // Every slot a probe for `b`'s TTL passes before reaching `b` is used.
    ghost predicate Probed(b: Blade)
      requires tab.Length == cap == Pow2(bits) && bits <= 64
      reads `tab, `cap, `bits, tab, tab[..]`used, b`used, b`ttl, b`at
    {
      forall j {:trigger tab[j]} ::
        0 <= j < cap && Steps(Home(b.ttl, bits), j, cap) < Steps(Home(b.ttl, bits), b.at, cap) ==> tab[j].used
    }

    ghost predicate Slots()
      reads `tab, `cap, `bits, `blades, tab, blades`at
    {
      && tab.Length == cap == Pow2(bits) && 4 <= bits < 64
      && (forall i :: 0 <= i < cap ==> tab[i] in blades && tab[i].at == i)
      && (forall b :: b in blades ==> b.at < cap && tab[b.at] == b)
    }

    ghost predicate Table()
      reads `tab, `cap, `bits, `blades, `bucket, tab, blades`at, blades`used, blades`ttl
    {
      && Slots()
      && (forall b :: b in blades && b.used ==> b.ttl in bucket && bucket[b.ttl] == b)
      && (forall k :: k in bucket ==> bucket[k] in blades && bucket[k].used && bucket[k].ttl == k)
      && (forall b :: b in blades && b.used ==> Probed(b))
    }

    // A table with fewer TTLs than slots has an unused slot.
    lemma FreeSlot() returns (f: nat)
      requires Table() && |bucket| < cap
      ensures f < cap && !tab[f].used
    {
      hide Probed, Home;
      if !exists n: nat :: n < cap && !tab[n].used {
        AllUsed();
      }
      f :| f < cap && !tab[f].used;
    }

    lemma AllUsed()
      requires Table() && forall j: nat :: j < cap ==> tab[j].used
      ensures cap <= |bucket|
    {
      hide Probed, Home;
      CountUsed(cap);
      assert TtlsBelow(cap) <= bucket.Keys;
      SubsetSize(TtlsBelow(cap), bucket.Keys);
      assert |bucket.Keys| == |bucket|;
    }

    ghost function TtlsBelow(n: nat): set<nat>
      requires n <= tab.Length
      reads this, tab, tab[..]
    {
      set j | 0 <= j < n :: tab[j].ttl
    }

    lemma {:induction false} CountUsed(n: nat)
      requires Table() && n <= cap && forall j :: 0 <= j < n ==> tab[j].used
      ensures |TtlsBelow(n)| == n
    {
      hide Probed, Home;
      if n > 0 {
        CountUsed(n - 1);
        var t := tab[n - 1].ttl;
        assert bucket[t] == tab[n - 1] && tab[n - 1].at == n - 1;
        forall j | 0 <= j < n - 1
          ensures tab[j].ttl != t
        {
          assert bucket[tab[j].ttl] == tab[j] && tab[j].at == j;
        }
        assert TtlsBelow(n) == TtlsBelow(n - 1) + {t};
      }
    }

    // `b` is where a new bucket for `ttl` belongs: an unused slot that a probe reaches past used
    // ones only.
    ghost predicate Vacant(ttl: nat, b: Blade)
      requires tab.Length == cap == Pow2(bits) && bits <= 64
      reads `tab, `cap, `bits, tab, tab[..]`used, b`used, b`ttl, b`at
    {
      && !b.used
      && forall j {:trigger tab[j]} ::
           0 <= j < cap && Steps(Home(ttl, bits), j, cap) < Steps(Home(ttl, bits), b.at, cap) ==> tab[j].used
    }

    // The first `n` slots of a probe from `h` are used by other TTLs.
    ghost predicate Passed(ttl: nat, h: nat, n: int)
      requires tab.Length == cap
      reads `tab, `cap, tab, tab[..]`used, tab[..]`ttl
    {
      forall j {:trigger tab[j]} :: 0 <= j < cap && Steps(h, j, cap) < n ==> tab[j].used && tab[j].ttl != ttl
    }

    // Finds the bucket of a TTL, or the unused slot where it belongs. The probe ends because some
    // slot is free.
    method FindSlot(ttl: nat) returns (b: Blade)
      requires Table() && |bucket| < cap
      ensures b in blades
      ensures ttl in bucket ==> b == bucket[ttl]
      ensures ttl !in bucket ==> !b.used && Vacant(ttl, b)
    {
      hide Home, Ones, Pow2, Low, Probed, Passed;
      ghost var free := FreeSlot();
      var mask := cap - 1;
      var i := Home(ttl, bits);
      ghost var h := i;
      MaskIs();
      assert Passed(ttl, h, 0) by { PassedNone(ttl, h); }
      while true
        invariant h <= i <= h + Steps(h, free, cap)
        invariant Passed(ttl, h, i - h)
        decreases h + Steps(h, free, cap) - i
      {
        MaskTurn(i, bits);
        b := tab[And(i, mask)];
        if !b.used || b.ttl == ttl {
          break;
        }
        PassedMore(ttl, h, i, And(i, mask), free);
        i := i + 1;
      }
      ProbeEnds(ttl, b, i);
    }

    lemma PassedNone(ttl: nat, h: nat)
      requires Slots() && h < cap
      ensures Passed(ttl, h, 0)
    {
    }

    lemma PassedMore(ttl: nat, h: nat, i: nat, p: nat, free: nat)
      requires Slots() && h < cap && h <= i <= h + Steps(h, free, cap) && free < cap && !tab[free].used
      requires p == if i < cap then i else i - cap
      requires tab[p].used && tab[p].ttl != ttl && Passed(ttl, h, i - h)
      ensures i < h + Steps(h, free, cap)
      ensures Passed(ttl, h, i + 1 - h)
    {
    }

    lemma MaskIs()
      requires Slots()
      ensures cap - 1 == Ones(bits)
    {
    }

    // A probe stops at the TTL's own bucket, or at the vacant slot where it belongs.
    lemma ProbeEnds(ttl: nat, b: Blade, i: nat)
      requires Table() && b in blades && i < 2 * cap && b.at == if i < cap then i else i - cap
      requires Home(ttl, bits) <= i && Passed(ttl, Home(ttl, bits), i - Home(ttl, bits))
      requires i - Home(ttl, bits) == Steps(Home(ttl, bits), b.at, cap)
      requires !b.used || b.ttl == ttl
      ensures ttl in bucket ==> b == bucket[ttl]
      ensures ttl !in bucket ==> !b.used && Vacant(ttl, b)
    {
      hide Home;
      if ttl in bucket {
        var c := bucket[ttl];
        assert Probed(c) && tab[c.at] == c && tab[b.at] == b;
        if b.used {
          assert bucket[b.ttl] == b;
        }
      }
    }

    // ---- The store ----

    // A bucket's queue is well linked and in deadline order, and its timers are in the store.
    ghost predicate QueueAt(b: Blade)
      reads `timers, b`used, b`head, b`tail, b`queue
      reads b.queue`next, b.queue`prev, b.queue`owner, b.queue`expiration
    {
      && b.Linked()
      && (!b.used ==> b.queue == [])
      && (forall t :: t in b.queue ==> t in timers && t.owner == b)
      && InOrder(b.queue)
    }

    static ghost predicate InOrder(q: seq<Timer>)
      reads q`expiration
    {
      forall i, j :: 0 <= i < j < |q| ==> q[i].expiration <= q[j].expiration
    }

    // A timer in the store is on the queue of its TTL's bucket; the cached bound is not beyond its
    // deadline.
    ghost predicate TimerAt(t: Timer)
      reads `now, `nextExpiration, `blades, t, blades`ttl, blades`queue
    {
      && t.inStore
      && t.owner in blades && t in t.owner.queue && t.ttl == t.owner.ttl
      && nextExpiration <= t.expiration < TWO64 && t.expiration <= now + t.ttl
    }

    // The queues and the timers on them.
    ghost predicate Queues()
      reads `now, `nextExpiration, `blades, `timers, timers
      reads blades`used, blades`ttl, blades`head, blades`tail, blades`queue
    {
      && (forall b :: b in blades ==> forall t :: t in b.queue ==> t in timers)
      && (forall b :: b in blades ==> QueueAt(b))
      && (forall t :: t in timers ==> t.owner in blades && TimerAt(t))
    }

    // The live list threads exactly the non-empty buckets, each once.
    ghost predicate Live()
      reads `liveHead, `order, `blades, blades`queue, order`livePrev, order`liveNext
    {
      && Threaded()
      && (forall b :: b in order ==> b in blades)
      && (forall b :: b in blades ==> (b in order <==> b.queue != []))
    }

    ghost predicate Counts()
      reads this
    {
      && now < TWO64 && nextExpiration < TWO64
      && live == |timers|
      && count == |bucket|
      && 10 * count < 7 * cap
      && (cap == 16 || 7 * cap <= 20 * (count + 1))
    }

    ghost predicate Valid()
      reads this, tab, blades, timers, order
    {
      Table() && Queues() && Live() && Counts()
    }

    // ---- Starting a timer ----

    // Enters a TTL in the table.
    method ClaimSlot(ttl: nat, b: Blade)
      requires Table() && b in blades && ttl !in bucket && Vacant(ttl, b)
      modifies `bucket, b`used, b`ttl
      ensures Table() && b.used && b.ttl == ttl && bucket == old(bucket)[ttl := b]
    {
      hide Home;
      b.used := true;
      b.ttl := ttl;
      bucket := bucket[ttl := b];
      forall c | c in blades && c.used
        ensures Probed(c)
      {
        assert c != b ==> old(Probed(c));
      }
    }

    // Relabelling an empty bucket disturbs no queue.
    twostate lemma RelabelKeeps(b: Blade)
      requires old(Queues()) && b in blades && old(b.queue) == [] && b.Linked()
      requires unchanged(`now, `nextExpiration, `blades, `timers) && unchanged(timers)
      requires b.queue == [] && forall c :: c in blades && c != b ==> unchanged(c)
      ensures Queues()
    {
      hide Blade.Linked, InOrder;
      forall c | c in blades
        ensures QueueAt(c)
      {
        assert old(QueueAt(c));
      }
      forall t | t in timers
        ensures t.owner in blades && TimerAt(t)
      {
        assert old(TimerAt(t));
      }
    }

    // Turns a vacant slot into the bucket of `ttl`.
    method Claim(ttl: nat, b: Blade)
      requires Valid() && b in blades && ttl !in bucket && Vacant(ttl, b)
      requires b.queue == [] && 10 * (count + 1) < 7 * cap
      modifies `count, `bucket, b`used, b`ttl, b`head, b`tail
      ensures Valid() && b.used && b.ttl == ttl && bucket == old(bucket)[ttl := b] && count == old(count) + 1
    {
      hide Blade.Linked, Table, Vacant, Queues, Live;
      ClaimSlot(ttl, b);
      b.head, b.tail := null, null;
      count := count + 1;
      b.EmptyLinked();
      RelabelKeeps(b);
    }

    // Appends a timer to its TTL's queue: its deadline is not before any that is there already.
    method Enqueue(b: Blade, n: Timer, ttl: nat)
      requires Table() && Queues() && b in blades && b.used && b.ttl == ttl && n !in timers && now + ttl < TWO64
      modifies `nextExpiration, `timers, b`head, b`tail, b`queue, n, b.queue`next
      ensures Table() && Queues() && timers == old(timers) + {n}
      ensures n.ttl == ttl && n.expiration == now + ttl && n.owner == b
      ensures b.queue == old(b.queue) + [n]
      ensures nextExpiration == if now + ttl < old(nextExpiration) then now + ttl else old(nextExpiration)
    {
      hide Table, Blade.Linked, InOrder, Without;
      assert QueueAt(b);
      b.Adopt(n, ttl, now + ttl);
      timers := timers + {n};
      nextExpiration := if n.expiration < nextExpiration then n.expiration else nextExpiration;
      AppendInOrder(b, n);
      EnqueueKeeps(b, n);
    }

    twostate lemma EnqueueKeeps(b: Blade, new n: Timer)
      requires old(Queues()) && b in old(blades) && old(b.used) && n !in old(timers)
      requires unchanged(`now, `blades) && timers == old(timers) + {n} && nextExpiration <= old(nextExpiration)
      requires forall c :: c in blades ==> c.used == old(c.used) && c.ttl == old(c.ttl)
      requires forall c :: c in blades && c != b ==>
                 c.head == old(c.head) && c.tail == old(c.tail) && c.queue == old(c.queue)
      requires forall t :: t in old(timers) ==>
                 && t.ttl == old(t.ttl) && t.expiration == old(t.expiration) && t.inStore == old(t.inStore)
                 && t.owner == old(t.owner) && t.prev == old(t.prev)
      requires forall t :: t in old(timers) && t !in old(b.queue) ==> t.next == old(t.next)
      requires b.queue == old(b.queue) + [n] && b.Linked() && InOrder(b.queue)
      requires TimerAt(n) && n.owner == b
      ensures Queues()
    {
      hide Blade.Linked, InOrder;
      assert old(QueueAt(b));
      forall c | c in blades && c != b
        ensures QueueAt(c)
      {
        assert old(QueueAt(c));
        assert forall t :: t in c.queue ==> old(t.owner) == c;
        QueueKept(c);
      }
      forall t | t in old(timers)
        ensures TimerAt(t)
      {
        assert old(TimerAt(t));
      }
    }

    // A queue none of whose timers is touched is still in order.
    twostate lemma QueueKept(c: Blade)
      requires old(QueueAt(c)) && unchanged(c`used, c`head, c`tail, c`queue)
      requires forall t :: t in c.queue ==>
                 t.next == old(t.next) && t.prev == old(t.prev) &&
                 t.owner == old(t.owner) && t.expiration == old(t.expiration)
      requires forall t :: t in c.queue ==> t in timers
      ensures QueueAt(c)
    {
      c.StillLinked();
    }

    twostate lemma AppendInOrder(b: Blade, new n: Timer)
      requires old(Queues()) && b in blades && b.queue == old(b.queue) + [n]
      requires b in old(blades)
      requires forall t :: t in old(b.queue) ==> t.expiration == old(t.expiration) <= n.expiration
      ensures InOrder(b.queue)
    {
      assert old(QueueAt(b));
    }

    // Appends a timer to its bucket and puts the bucket on the live list if it was empty.
    method Push(b: Blade, n: Timer, ttl: nat)
      requires Valid() && b in blades && b.used && b.ttl == ttl && n !in timers && now + ttl < TWO64
      modifies `nextExpiration, `timers, `live, `liveHead, `order
      modifies b`head, b`tail, b`queue, b`livePrev, b`liveNext, n, b.queue`next, order`livePrev
      ensures Valid() && timers == old(timers) + {n}
      ensures n.ttl == ttl && n.expiration == now + ttl && n.owner == b
      ensures b.queue == old(b.queue) + [n]
      ensures nextExpiration == if now + ttl < old(nextExpiration) then now + ttl else old(nextExpiration)
      ensures order == if old(b.queue) == [] then [b] + old(order) else old(order)
    {
      hide Table, Queues, Live;
      PushQueue(b, n, ttl);
      live := live + 1;
    }

    method PushQueue(b: Blade, n: Timer, ttl: nat)
      requires Table() && Queues() && Live()
      requires b in blades && b.used && b.ttl == ttl && n !in timers && now + ttl < TWO64
      modifies `nextExpiration, `timers, `liveHead, `order
      modifies b`head, b`tail, b`queue, b`livePrev, b`liveNext, n, b.queue`next, order`livePrev
      ensures Table() && Queues() && Live()
      ensures timers == old(timers) + {n}
      ensures n.ttl == ttl && n.expiration == now + ttl && n.owner == b
      ensures b.queue == old(b.queue) + [n]
      ensures nextExpiration == if now + ttl < old(nextExpiration) then now + ttl else old(nextExpiration)
      ensures order == if old(b.queue) == [] then [b] + old(order) else old(order)
    {
      hide Blade.Linked, Table, Queues, Live;
      HeadTells(b);
      var wasEmpty := b.head == null;
      Enqueue(b, n, ttl);
      LiveElsewhere(b);
      if wasEmpty {
        Enlist(b);
      }
    }

    // An empty bucket has no head.
    lemma HeadTells(b: Blade)
      requires Queues() && b in blades
      ensures b.head == null <==> b.queue == []
    {
      assert QueueAt(b);
    }

    // The live list is right but for `b`.
    ghost predicate LiveBut(b: Blade)
      reads `liveHead, `order, `blades, blades`queue, order`livePrev, order`liveNext
    {
      && Threaded()
      && (forall c :: c in order ==> c in blades)
      && (forall c :: c in blades && c != b ==> (c in order <==> c.queue != []))
    }

    // Puts a bucket that has just become non-empty on the live list.
    method Enlist(b: Blade)
      requires LiveBut(b) && b in blades && b.queue != [] && b !in order
      requires Table() && Queues()
      modifies `liveHead, `order, b`livePrev, b`liveNext, order`livePrev
      ensures Live() && order == [b] + old(order)
      ensures Table() && Queues()
    {
      hide Threaded, Table, Queues;
      LiveLink(b);
    }

    // Takes a bucket that has just become empty off the live list.
    method Delist(b: Blade)
      requires LiveBut(b) && b in blades && b.queue == [] && b in order
      requires Table() && Queues()
      modifies `liveHead, `order, order`livePrev, order`liveNext
      ensures Live() && order == Without(old(order), b)
      ensures Table() && Queues()
    {
      hide Without, Table, Queues;
      OrderNoDup();
      WithoutIs(order, b);
      hide Threaded;
      LiveUnlink(b);
    }

    lemma OrderNoDup()
      requires Threaded()
      ensures NoDup(order)
    {
    }

    // ---- Stopping a timer ----

    // Takes a timer off the queue it is on.
    method Dequeue(b: Blade, n: Timer)
      requires Table() && Queues() && n in timers && b == n.owner
      modifies `timers, b`head, b`tail, b`queue, b.queue`next, b.queue`prev, n`inStore
      ensures Table() && Queues() && timers == old(timers) - {n}
      ensures b.queue == Without(old(b.queue), n) && !n.inStore
      ensures n.next == null && n.prev == null
    {
      hide Table, Blade.Linked, InOrder, Without;
      assert TimerAt(n) && QueueAt(b);
      CutFrom(b, n);
      n.inStore := false;
      timers := timers - {n};
      DequeueKeeps(b, n);
    }

    static method CutFrom(b: Blade, n: Timer)
      requires b.Linked() && InOrder(b.queue) && n in b.queue
      modifies b`head, b`tail, b`queue, b.queue`next, b.queue`prev
      ensures b.Linked() && InOrder(b.queue) && b.queue == Without(old(b.queue), n)
      ensures n !in b.queue && forall t :: t in b.queue <==> t in old(b.queue) && t != n
      ensures n.next == null && n.prev == null
    {
      hide Blade.Linked, InOrder, Without;
      InOrderWithout(b.queue, n);
      ghost var rest := Without(b.queue, n);
      b.LinkedNoDup();
      WithoutIs(b.queue, n);
      b.Unlink(n);
      StillInOrder(rest);
    }

    static twostate lemma StillInOrder(q: seq<Timer>)
      requires old(InOrder(q)) && forall t :: t in q ==> t.expiration == old(t.expiration)
      ensures InOrder(q)
    {
    }

    static lemma {:induction false} InOrderWithout(q: seq<Timer>, n: Timer)
      requires InOrder(q)
      ensures InOrder(Without(q, n))
      ensures forall t :: t in Without(q, n) ==> t in q
    {
      if q != [] && q[0] != n {
        InOrderWithout(q[1..], n);
        var r := Without(q[1..], n);
        forall t | t in r
          ensures q[0].expiration <= t.expiration
        {
          var i :| 0 <= i < |q[1..]| && q[1..][i] == t;
          assert q[i + 1] == t;
        }
      }
    }

    // Shrinking one queue leaves the others as they were.
    twostate lemma DequeueKeeps(b: Blade, new n: Timer)
      requires old(Queues()) && b in old(blades) && n in old(timers) && old(n.owner) == b
      requires unchanged(`now, `blades, `nextExpiration) && timers == old(timers) - {n}
      requires forall c :: c in blades ==> c.used == old(c.used) && c.ttl == old(c.ttl)
      requires forall c :: c in blades && c != b ==>
                 c.head == old(c.head) && c.tail == old(c.tail) && c.queue == old(c.queue)
      requires forall t :: t in old(timers) ==>
                 t.ttl == old(t.ttl) && t.expiration == old(t.expiration) && t.owner == old(t.owner)
      requires forall t :: t in old(timers) && t != n ==> t.inStore == old(t.inStore)
      requires forall t :: t in old(timers) && t !in old(b.queue) ==> t.next == old(t.next) && t.prev == old(t.prev)
      requires forall t :: t in b.queue ==> t in old(b.queue) && t != n
      requires forall t :: t in old(b.queue) && t != n ==> t in b.queue
      requires b.Linked() && InOrder(b.queue)
      ensures Queues()
    {
      hide Blade.Linked, InOrder;
      assert old(QueueAt(b));
      forall c | c in blades && c != b
        ensures QueueAt(c)
      {
        assert old(QueueAt(c));
        assert forall t :: t in c.queue ==> old(t.owner) == c;
        QueueKept(c);
      }
      forall t | t in timers
        ensures TimerAt(t)
      {
        assert old(TimerAt(t));
        if t.owner == b {
          assert t in old(b.queue) && t in b.queue;
        } else {
          assert t.owner.queue == old(t.owner.queue);
        }
      }
    }

    // Takes a timer out of the store; one that is not in it is left alone.
    method Del(n: Timer)
      requires Valid() && (n.inStore ==> n in timers)
      modifies `timers, `live, `liveHead, `order, n`inStore
      modifies blades`head, blades`tail, blades`queue, timers`next, timers`prev, blades`livePrev, blades`liveNext
      ensures Valid() && timers == old(timers) - {n} && !n.inStore
      ensures old(n.inStore) ==> n.owner in blades && n.owner.queue == Without(old(n.owner.queue), n)
      ensures forall c :: c in blades && (old(n.inStore) ==> c != n.owner) ==> c.queue == old(c.queue)
      ensures old(n.inStore) ==>
                var b: Blade := n.owner;
                order == if b.queue == [] then Without(old(order), b) else old(order)
      ensures !old(n.inStore) ==> order == old(order)
    {
      hide Table, Counts, Threaded, Blade.Linked, QueueAt, Without;
      if !n.inStore {
        assert n in timers ==> TimerAt(n);
        return;
      }
      assert TimerAt(n);
      OwnerBucket(n);
      TableRoom();
      var b := FindSlot(n.ttl);
      Remove(b, n);
    }

    method Remove(b: Blade, n: Timer)
      requires Valid() && n in timers && b == n.owner && b in blades
      modifies `timers, `live, `liveHead, `order, n`inStore
      modifies b`head, b`tail, b`queue, b.queue`next, b.queue`prev, order`livePrev, order`liveNext
      ensures Valid() && timers == old(timers) - {n} && !n.inStore
      ensures b.queue == Without(old(b.queue), n)
      ensures order == if b.queue == [] then Without(old(order), b) else old(order)
    {
      hide Table, Queues, Live, Without;
      RemoveQueue(b, n);
      live := live - 1;
    }

    method RemoveQueue(b: Blade, n: Timer)
      requires Table() && Queues() && Live() && n in timers && b == n.owner && b in blades
      modifies `timers, `liveHead, `order, n`inStore
      modifies b`head, b`tail, b`queue, b.queue`next, b.queue`prev, order`livePrev, order`liveNext
      ensures Table() && Queues() && Live() && timers == old(timers) - {n} && !n.inStore
      ensures b.queue == Without(old(b.queue), n)
      ensures order == if b.queue == [] then Without(old(order), b) else old(order)
    {
      hide Table, Blade.Linked, Without, Queues, Live;
      OnQueue(n);
      Dequeue(b, n);
      LiveElsewhere(b);
      HeadTells(b);
      if b.head == null {
        Delist(b);
      }
    }

    lemma OnQueue(n: Timer)
      requires Queues() && n in timers
      ensures n.owner in blades && n in n.owner.queue
    {
      assert TimerAt(n);
    }

    lemma TableRoom()
      requires Counts()
      ensures |bucket| < cap
    {
    }

    lemma OwnerBucket(n: Timer)
      requires Table() && Queues() && n in timers
      ensures n.ttl in bucket && bucket[n.ttl] == n.owner
    {
      hide Blade.Linked;
      assert TimerAt(n) && QueueAt(n.owner);
    }

    // ---- Growing the table ----

    // A zeroed table.
    static method NewTable(n: nat) returns (t: array<Blade>, ghost slots: set<Blade>)
      ensures fresh(t) && t.Length == n && fresh(slots)
      ensures forall i :: 0 <= i < n ==> t[i] in slots && t[i].at == i
      ensures forall b :: b in slots ==> b.at < n && t[b.at] == b
      ensures forall b :: b in slots ==> Zeroed(b)
    {
      var s: seq<Blade> := [];
      while |s| < n
        invariant |s| <= n
        invariant forall i :: 0 <= i < |s| ==> fresh(s[i]) && s[i].at == i && Zeroed(s[i])
      {
        var b := new Blade(|s|);
        s := s + [b];
      }
      t := new Blade[n](i requires 0 <= i < n => s[i]);
      slots := set b | b in s;
    }

    static ghost predicate Zeroed(b: Blade)
      reads b
    {
      !b.used && b.head == null && b.tail == null && b.queue == [] && b.Linked()
    }

    // A bucket of the old table, ready to be moved.
    ghost predicate Movable(o: Blade)
      reads `now, `nextExpiration, o`used, o`ttl, o`head, o`tail, o`queue
      reads o.queue`next, o.queue`prev, o.queue`ttl, o.queue`expiration, o.queue`inStore
    {
      && o.used && o.Linked() && InOrder(o.queue)
      && forall t :: t in o.queue ==>
           t.inStore && t.ttl == o.ttl && nextExpiration <= t.expiration < TWO64 && t.expiration <= now + t.ttl
    }

    // Copies a bucket of the old table, queue and all, into the slot where it belongs in the new
    // one.
    method PlaceBucket(o: Blade)
      requires Table() && Queues() && Live() && |bucket| < cap
      requires o !in blades && o.ttl !in bucket && Movable(o)
      modifies `bucket, `timers, `order, `liveHead, blades, o.queue`owner
      ensures Table() && Queues() && Live()
      ensures blades == old(blades)
      ensures bucket.Keys == old(bucket).Keys + {o.ttl} && |bucket| == |old(bucket)| + 1
      ensures timers == old(timers) + (set t | t in o.queue)
      ensures bucket[o.ttl].queue == o.queue
      ensures forall k :: k in old(bucket) ==> bucket[k] == old(bucket[k]) && bucket[k].queue == old(bucket[k].queue)
    {
      hide Table, Blade.Linked, Vacant, Queues, Live, InOrder;
      var b := FindSlot(o.ttl);
      VacantIsNew(b);
      VacantIsEmpty(b);
      EmptyNotListed(b);
      FillSlot(o, b);
      LiveElsewhere(b);
      Settle(b);
    }

    // Moving one bucket leaves the ones still to be moved as they were.
    method MoveBucket(o: Blade, ghost rest: set<Blade>)
      requires Table() && Queues() && Live() && |bucket| < cap
      requires o !in blades && o.ttl !in bucket && Movable(o)
      requires forall r :: r in rest ==> r !in blades && Movable(r)
      modifies `bucket, `timers, `order, `liveHead, blades, o.queue`owner
      ensures Table() && Queues() && Live()
      ensures blades == old(blades)
      ensures bucket.Keys == old(bucket).Keys + {o.ttl} && |bucket| == |old(bucket)| + 1
      ensures forall r :: r in rest ==> Movable(r)
      ensures timers == old(timers) + (set t | t in o.queue)
      ensures bucket[o.ttl].queue == o.queue
      ensures forall k :: k in old(bucket) ==> bucket[k] == old(bucket[k]) && bucket[k].queue == old(bucket[k].queue)
    {
      hide Table, Queues, Live, Movable;
      PlaceBucket(o);
    }

    // Lists a bucket that has been moved, unless it is empty.
    method Settle(b: Blade)
      requires LiveBut(b) && b in blades && b !in order && (b.head == null <==> b.queue == [])
      requires Table() && Queues()
      modifies `liveHead, `order, b`livePrev, b`liveNext, order`livePrev
      ensures Live() && Table() && Queues()
    {
      hide Threaded, Table, Queues;
      b.livePrev, b.liveNext := null, null;
      if b.head != null {
        Enlist(b);
      }
    }

    method FillSlot(o: Blade, b: Blade)
      requires Table() && Queues() && b in blades && Vacant(o.ttl, b) && b.queue == [] && b.Linked()
      requires o !in blades && o.ttl !in bucket && Movable(o)
      modifies `bucket, `timers, b`used, b`ttl, b`head, b`tail, b`queue, o.queue`owner
      ensures Table() && Queues() && bucket == old(bucket)[o.ttl := b]
      ensures timers == old(timers) + (set t | t in o.queue)
      ensures b.queue == o.queue && (b.head == null <==> b.queue == [])
    {
      hide Table, Blade.Linked, Vacant, Queues, InOrder;
      NotYetIn(o);
      ClaimSlot(o.ttl, b);
      RelabelKeeps(b);
      CopyQueue(o, b);
    }

    // Changing one queue can upset the live list only there.
    twostate lemma LiveElsewhere(b: Blade)
      requires old(Live()) && unchanged(`liveHead, `order, `blades) && b in blades
      requires forall c :: c in blades && c != b ==> c.queue == old(c.queue)
      requires forall c :: c in order ==> c.livePrev == old(c.livePrev) && c.liveNext == old(c.liveNext)
      ensures LiveBut(b)
      ensures b in order <==> old(b.queue) != []
      ensures (b.queue == [] <==> old(b.queue) == []) ==> Live()
    {
    }

    lemma EmptyNotListed(b: Blade)
      requires Live() && b in blades && b.queue == []
      ensures b !in order
    {
    }

    lemma VacantIsNew(b: Blade)
      requires Table() && !b.used
      ensures forall k :: k in bucket ==> bucket[k] != b && bucket[k] in blades
    {
    }

    // The timers of a bucket whose TTL is not in the table are not in it either.
    lemma NotYetIn(o: Blade)
      requires Table() && Queues() && o.ttl !in bucket && Movable(o)
      ensures forall t :: t in o.queue ==> t !in timers
    {
      hide Table, Blade.Linked, InOrder, Queues;
      forall t | t in o.queue
        ensures t !in timers
      {
        if t in timers {
          OwnerBucket(t);
        }
      }
    }

    lemma VacantIsEmpty(b: Blade)
      requires Queues() && b in blades && !b.used
      ensures b.queue == [] && b.Linked()
    {
      hide Blade.Linked, InOrder;
      assert QueueAt(b);
    }

    // Hands the queue of `o` over to `b`.
    method CopyQueue(o: Blade, b: Blade)
      requires Table() && Queues() && b in blades && b.used && b.ttl == o.ttl && b.queue == []
      requires o !in blades && Movable(o) && forall t :: t in o.queue ==> t !in timers
      modifies `timers, b`head, b`tail, b`queue, o.queue`owner
      ensures Table() && Queues() && timers == old(timers) + (set t | t in o.queue)
      ensures b.queue == o.queue && (b.head == null <==> b.queue == [])
    {
      hide Table, Blade.Linked, InOrder, QueueAt, TimerAt;
      b.TakeOver(o);
      timers := timers + (set t | t in o.queue);
      StillInOrder(o.queue);
      CopyKeeps(b);
    }

    // Filling one empty queue leaves the others as they were.
    twostate lemma CopyKeeps(b: Blade)
      requires old(Queues()) && b in old(blades) && old(b.queue) == []
      requires unchanged(`now, `blades, `nextExpiration) && timers == old(timers) + (set t | t in b.queue)
      requires forall c :: c in blades ==> c.used == old(c.used) && c.ttl == old(c.ttl)
      requires forall c :: c in blades && c != b ==>
                 c.head == old(c.head) && c.tail == old(c.tail) && c.queue == old(c.queue)
      requires forall t :: t in old(timers) ==>
                 t.ttl == old(t.ttl) && t.expiration == old(t.expiration) && t.inStore == old(t.inStore)
      requires forall t :: t in old(timers) ==>
                 t.owner == old(t.owner) && t.next == old(t.next) && t.prev == old(t.prev)
      requires b.Linked() && InOrder(b.queue) && b.used
      requires forall t :: t in b.queue ==> t.owner == b && t !in old(timers) && t.inStore && t.ttl == b.ttl
      requires forall t :: t in b.queue ==> nextExpiration <= t.expiration < TWO64 && t.expiration <= now + t.ttl
      ensures Queues()
    {
      hide Blade.Linked, InOrder;
      forall c | c in blades && c != b
        ensures QueueAt(c)
      {
        assert old(QueueAt(c));
        QueueKept(c);
      }
      forall t | t in old(timers)
        ensures TimerAt(t)
      {
        assert old(TimerAt(t));
      }
    }

    // `was` lists the used buckets of the old table `ot`, none of which is among the new ones.
    static ghost predicate Source(ot: array<Blade>, was: map<nat, Blade>, new': set<Blade>)
      reads ot, ot[..]`at, ot[..]`used, ot[..]`ttl
    {
      && (forall j :: 0 <= j < ot.Length ==> ot[j] !in new' && ot[j].at == j)
      && (forall j :: 0 <= j < ot.Length && ot[j].used ==> ot[j].ttl in was && was[ot[j].ttl] == ot[j])
      && (forall k :: k in was ==> was[k] in ot[..] && was[k].used && was[k].ttl == k)
    }

    // The old buckets below `i` have been moved.
    ghost predicate Moved(was: map<nat, Blade>, i: nat)
      reads `bucket, bucket.Values`queue, was.Values`at, was.Values`queue
    {
      && (forall k :: k in bucket ==> k in was && was[k].at < i && bucket[k].queue == was[k].queue)
      && (forall k :: k in was && was[k].at < i ==> k in bucket)
    }

    // Moves one slot of the old table, if it is used.
    method MoveSlot(ot: array<Blade>, i: nat, ghost was: map<nat, Blade>, ghost all: set<Timer>, newCount: nat)
      returns (newCount': nat)
      requires Table() && Queues() && Live() && |bucket| < cap && newCount == |bucket|
      requires i < ot.Length && Source(ot, was, blades) && Moved(was, i)
      requires forall j :: i <= j < ot.Length && ot[j].used ==> Movable(ot[j])
      requires timers <= all && forall t :: t in ot[i].queue ==> t in all
      modifies `bucket, `timers, `order, `liveHead, blades, ot[i].queue`owner
      ensures Table() && Queues() && Live()
      ensures blades == old(blades) && newCount' == |bucket|
      ensures timers <= all
      ensures Moved(was, i + 1)
      ensures forall j :: i < j < ot.Length && ot[j].used ==> Movable(ot[j])
    {
      hide Table, Queues, Live, Movable, Moved;
      newCount' := newCount;
      if ot[i].used {
        MoveUsed(ot, i, was);
        newCount' := newCount' + 1;
      } else {
        NoneAt(ot, was, i);
      }
    }

    method MoveUsed(ot: array<Blade>, i: nat, ghost was: map<nat, Blade>)
      requires Table() && Queues() && Live() && |bucket| < cap
      requires i < ot.Length && ot[i].used && Source(ot, was, blades) && Moved(was, i)
      requires forall j :: i <= j < ot.Length && ot[j].used ==> Movable(ot[j])
      modifies `bucket, `timers, `order, `liveHead, blades, ot[i].queue`owner
      ensures Table() && Queues() && Live()
      ensures blades == old(blades) && |bucket| == |old(bucket)| + 1
      ensures timers == old(timers) + (set t | t in ot[i].queue)
      ensures Moved(was, i + 1)
      ensures forall j :: i < j < ot.Length && ot[j].used ==> Movable(ot[j])
    {
      hide Table, Queues, Live, Movable, Moved;
      SourceAt(ot, was, i);
      ToBeMoved(was, i);
      MoveBucket(ot[i], set j | i < j < ot.Length && ot[j].used :: ot[j]);
      MovedMore(ot, was, i);
    }

    lemma SourceAt(ot: array<Blade>, was: map<nat, Blade>, i: nat)
      requires i < ot.Length && Source(ot, was, blades) && ot[i].used
      ensures ot[i].ttl in was && was[ot[i].ttl] == ot[i] && ot[i].at == i
    {
    }

    lemma ToBeMoved(was: map<nat, Blade>, i: nat)
      requires Moved(was, i)
      ensures forall k :: k in was && was[k].at == i ==> k !in bucket
    {
    }

    lemma NoneAt(ot: array<Blade>, was: map<nat, Blade>, i: nat)
      requires i < ot.Length && Source(ot, was, blades) && Moved(was, i) && !ot[i].used
      ensures Moved(was, i + 1)
    {
      assert forall k :: k in was ==> was[k] == ot[was[k].at];
    }

    twostate lemma MovedMore(new ot: array<Blade>, new was: map<nat, Blade>, i: nat)
      requires old(allocated(ot)) && old(allocated(was)) && i < ot.Length && old(Source(ot, was, blades))
      requires old(Moved(was, i))
      requires unchanged(ot) && forall k :: k in was ==> unchanged(was[k])
      requires old(ot[i].used) && bucket.Keys == old(bucket).Keys + {ot[i].ttl}
      requires bucket[ot[i].ttl].queue == ot[i].queue
      requires forall k :: k in old(bucket) ==> bucket[k] == old(bucket[k]) && bucket[k].queue == old(bucket[k].queue)
      ensures Moved(was, i + 1)
    {
      assert forall k :: k in was ==> was[k] == ot[was[k].at];
    }

    // Moves every used bucket of the old table.
    method Rehash(ot: array<Blade>, ghost was: map<nat, Blade>, ghost all: set<Timer>) returns (newCount: nat)
      requires Table() && Queues() && Live()
      requires bucket == map[] && |was| < cap && Source(ot, was, blades) && Moved(was, 0)
      requires forall j :: 0 <= j < ot.Length && ot[j].used ==> Movable(ot[j])
      requires forall j :: 0 <= j < ot.Length ==> forall t :: t in ot[j].queue ==> t in all
      requires timers <= all
      modifies `bucket, `timers, `order, `liveHead, blades, all`owner
      ensures Table() && Queues() && Live()
      ensures blades == old(blades) && newCount == |bucket| && bucket.Keys == was.Keys
      ensures timers <= all
      ensures forall k :: k in bucket ==> bucket[k].queue == old(was[k].queue)
    {
      hide Table, Queues, Live, Movable, Moved;
      newCount := 0;
      for i := 0 to ot.Length
        invariant Table() && Queues() && Live()
        invariant blades == old(blades) && newCount == |bucket| && timers <= all
        invariant Moved(was, i)
        invariant forall j :: i <= j < ot.Length && ot[j].used ==> Movable(ot[j])
      {
        Room(was, i);
        newCount := MoveSlot(ot, i, was, all, newCount);
      }
      AllMoved(ot, was);
    }

    lemma Room(was: map<nat, Blade>, i: nat)
      requires Moved(was, i)
      ensures |bucket| <= |was|
    {
      assert bucket.Keys <= was.Keys;
      SubsetSize(bucket.Keys, was.Keys);
      assert |bucket.Keys| == |bucket| && |was.Keys| == |was|;
    }

    lemma AllMoved(ot: array<Blade>, was: map<nat, Blade>)
      requires Source(ot, was, blades) && Moved(was, ot.Length)
      ensures bucket.Keys == was.Keys
      ensures forall k :: k in bucket ==> bucket[k].queue == was[k].queue
    {
      assert forall k :: k in was ==> was[k] == ot[was[k].at];
    }

    lemma ReadyToMove(k: nat)
      requires Valid() && k in bucket
      ensures Movable(bucket[k])
    {
      hide Blade.Linked, InOrder;
      var o := bucket[k];
      assert QueueAt(o);
      forall t | t in o.queue
        ensures t.inStore && t.ttl == o.ttl && nextExpiration <= t.expiration < TWO64 && t.expiration <= now + t.ttl
      {
        assert TimerAt(t);
      }
    }

    // What the rehash starts from.
    lemma OldTable()
      requires Valid()
      ensures Source(tab, bucket, {})
      ensures forall j :: 0 <= j < tab.Length && tab[j].used ==> Movable(tab[j])
      ensures forall j :: 0 <= j < tab.Length ==> forall t :: t in tab[j].queue ==> t in timers
    {
      hide Blade.Linked, InOrder, QueueAt, TimerAt, Probed;
      forall j | 0 <= j < tab.Length && tab[j].used
        ensures Movable(tab[j])
      {
        ReadyToMove(tab[j].ttl);
      }
      forall k | k in bucket
        ensures bucket[k] in tab[..]
      {
        assert tab[bucket[k].at] == bucket[k];
      }
    }

    // An empty table with nothing in it is consistent.
    lemma FreshTable()
      requires tab.Length == cap == Pow2(bits) && 4 <= bits < 64
      requires forall i :: 0 <= i < cap ==> tab[i] in blades && tab[i].at == i
      requires forall b :: b in blades ==> b.at < cap && tab[b.at] == b
      requires forall b :: b in blades ==> Zeroed(b)
      requires bucket == map[] && timers == {} && order == [] && liveHead == null
      ensures Table() && Queues() && Live()
    {
      hide Blade.Linked;
    }

    // Puts a zeroed table in place.
    method Reset(bits: nat)
      requires 4 <= bits < 64
      modifies `tab, `blades, `cap, `bits, `liveHead, `bucket, `timers, `order
      ensures Table() && Queues() && Live()
      ensures fresh(tab) && fresh(blades)
      ensures this.bits == bits && cap == Pow2(bits) && bucket == map[] && timers == {} && order == []
    {
      hide Blade.Linked, Table, Queues, Live, Zeroed;
      this.bits, cap := bits, Pow2(bits);
      ghost var slots;
      tab, slots := NewTable(cap);
      blades := slots;
      liveHead := null;
      bucket, timers, order := map[], {}, [];
      FreshTable();
    }

    // Rehashes every bucket into a table twice as large and rebuilds the live list.
    method Grow()
      requires Valid() && bits < 63 && 10 * (count + 1) >= 7 * cap
      modifies `count, `tab, `blades, `cap, `bits, `liveHead, `bucket, `timers, `order, timers`owner
      ensures Valid() && cap == 2 * old(cap) && fresh(blades)
      ensures unchanged(`now, `nextExpiration, `live, `timers, `count)
      ensures bucket.Keys == old(bucket).Keys
      ensures forall k :: k in bucket ==> bucket[k].queue == old(bucket[k].queue)
    {
      hide Table, Live, Queues, Counts, Blade.Linked, QueueAt, TimerAt;
      var newCount := Refill();
      SetCount(newCount);
      CountsAfterGrow();
    }

    method SetCount(n: nat)
      requires Table() && Queues() && Live()
      modifies `count
      ensures Table() && Queues() && Live() && count == n
    {
      count := n;
    }

    // Empties the store into a larger table.
    method Refill() returns (newCount: nat)
      requires Valid() && bits < 63
      modifies `tab, `blades, `cap, `bits, `liveHead, `bucket, `timers, `order, timers`owner
      ensures Table() && Queues() && Live() && timers == old(timers)
      ensures cap == 2 * old(cap) && fresh(blades)
      ensures newCount == |bucket| && bucket.Keys == old(bucket).Keys
      ensures forall k :: k in bucket ==> bucket[k].queue == old(bucket[k].queue)
    {
      hide Table, Live, Movable, Queues, Source, Moved, Counts;
      ghost var was, all := bucket, timers;
      var ot := tab;
      OldTable();
      TableRoom();
      Renew(ot, was);
      newCount := Rehash(ot, was, all);
      SameTimers();
    }

    // The table is twice as large and nothing else has changed.
    twostate lemma CountsAfterGrow()
      requires old(Counts()) && 10 * (old(count) + 1) >= 7 * old(cap)
      requires now == old(now) && nextExpiration == old(nextExpiration) && live == old(live)
      requires timers == old(timers) && cap == 2 * old(cap)
      requires bucket.Keys == old(bucket).Keys && count == |bucket|
      ensures Counts() && count == old(count)
    {
      assert |bucket.Keys| == |bucket| && |old(bucket).Keys| == |old(bucket)|;
    }

    // Sets the old table aside and puts an empty one, twice as large, in its place.
    method Renew(ot: array<Blade>, ghost was: map<nat, Blade>)
      requires Table() && bits < 63 && Source(ot, was, {})
      requires forall j :: 0 <= j < ot.Length && ot[j].used ==> Movable(ot[j])
      modifies `tab, `blades, `cap, `bits, `liveHead, `bucket, `timers, `order
      ensures Table() && Queues() && Live()
      ensures fresh(tab) && fresh(blades) && cap == 2 * old(cap)
      ensures bucket == map[] && timers == {} && order == []
      ensures Source(ot, was, blades) && Moved(was, 0)
      ensures forall j :: 0 <= j < ot.Length && ot[j].used ==> Movable(ot[j])
    {
      hide Table, Queues, Live, Movable;
      TableSize();
      Reset(bits + 1);
    }

    lemma TableSize()
      requires Table()
      ensures cap == Pow2(bits) && 4 <= bits
    {
    }

    // The timers on the new queues are those that were on the old ones.
    twostate lemma SameTimers()
      requires old(Valid()) && Table() && Queues() && timers <= old(timers)
      requires bucket.Keys == old(bucket).Keys
      requires forall k :: k in bucket ==> bucket[k].queue == old(bucket[k].queue)
      ensures timers == old(timers)
    {
      hide Blade.Linked, InOrder, Probed, Threaded;
      forall t | t in old(timers)
        ensures t in timers
      {
        assert old(TimerAt(t));
        assert QueueAt(bucket[old(t.ttl)]);
      }
    }

    // ---- The interface ----

    constructor ()
      ensures Valid() && now == 0 && timers == {} && bucket == map[] && cap == 16 && nextExpiration == UINT64_MAX
      ensures fresh(tab) && fresh(blades)
    {
      now, count, live, nextExpiration := 0, 0, 0, UINT64_MAX;
      cap, bits := 16, 4;
      liveHead := null;
      blades, bucket, order, timers := {}, map[], [], {};
      tab := new Blade[0];
      new;
      Reset(4);
    }

    // Grows the table if one more TTL would fill it to seven tenths.
    method MakeRoom()
      requires Valid() && (bits < 63 || 10 * (count + 1) < 7 * cap)
      modifies `count, `tab, `blades, `cap, `bits, `liveHead, `bucket, `timers, `order, timers`owner
      ensures Valid() && 10 * (count + 1) < 7 * cap && fresh(blades - old(blades))
      ensures unchanged(`now, `nextExpiration, `live, `timers, `count)
      ensures bucket.Keys == old(bucket).Keys
      ensures forall k :: k in bucket ==> bucket[k].queue == old(bucket[k].queue)
    {
      hide Table, Queues, Live;
      AtLeast16();
      if (count + 1) * 10 >= cap * 7 {
        Grow();
      }
    }

    lemma AtLeast16()
      requires Table()
      ensures cap >= 16
    {
      Pow2Mono(4, bits);
      assert Pow2(4) == 16;
    }

    // The bucket of a TTL, made if there is none.
    method BucketFor(ttl: nat) returns (b: Blade)
      requires Valid() && 10 * (count + 1) < 7 * cap
      modifies `count, `bucket, blades`used, blades`ttl, blades`head, blades`tail
      ensures Valid() && b in blades && b.used && b.ttl == ttl
      ensures ttl in bucket && bucket[ttl] == b
      ensures forall k :: k in old(bucket) ==> k in bucket && bucket[k] == old(bucket[k])
      ensures ttl !in old(bucket) ==> b.queue == []
      ensures bucket.Keys == old(bucket.Keys) + {ttl}
    {
      hide Queues, Live, Vacant, Probed, Blade.Linked;
      b := FindSlot(ttl);
      if !b.used {
        VacantIsEmpty(b);
        Claim(ttl, b);
      }
    }

    // Starts a timer with a time to live. Its bucket is made if need be, in a larger table if need
    // be.
    method Add(n: Timer, ttl: nat)
      requires Valid() && n !in timers && now + ttl < TWO64
      requires bits < 63 || 10 * (count + 1) < 7 * cap
      modifies this, blades, timers, n
      ensures Valid() && timers == old(timers) + {n} && fresh(blades - old(blades))
      ensures n.ttl == ttl && n.expiration == now + ttl
      ensures forall t :: t in old(timers) ==> t.expiration == old(t.expiration)
      ensures now == old(now) && bucket.Keys == old(bucket.Keys) + {ttl}
      ensures bucket[ttl].queue == (if ttl in old(bucket) then old(bucket[ttl].queue) else []) + [n]
      ensures forall k :: k in old(bucket) && k != ttl ==> bucket[k].queue == old(bucket[k].queue)
      ensures nextExpiration == if now + ttl < old(nextExpiration) then now + ttl else old(nextExpiration)
    {
      hide Valid;
      MakeRoom();
      Insert(n, ttl);
    }

    method Insert(n: Timer, ttl: nat)
      requires Valid() && n !in timers && now + ttl < TWO64 && 10 * (count + 1) < 7 * cap
      modifies `count, `bucket, `nextExpiration, `timers, `live, `liveHead, `order, blades, timers`next, n
      ensures Valid() && timers == old(timers) + {n}
      ensures n.ttl == ttl && n.expiration == now + ttl && bucket.Keys == old(bucket.Keys) + {ttl}
      ensures bucket[ttl].queue == (if ttl in old(bucket) then old(bucket[ttl].queue) else []) + [n]
      ensures forall k :: k in old(bucket) && k != ttl ==> bucket[k].queue == old(bucket[k].queue)
      ensures nextExpiration == if now + ttl < old(nextExpiration) then now + ttl else old(nextExpiration)
    {
      hide Table, Queues, Live, Counts, QueueAt, TimerAt, Blade.Linked;
      var b := BucketFor(ttl);
      QueuedIn(b);
      Listed();
      OwnBuckets();
      assert b in old(blades) && forall t :: t in b.queue ==> t in old(timers);
      assert forall c :: c in order ==> c in old(blades);
      Push(b, n, ttl);
    }

    // No two TTLs share a bucket.
    lemma OwnBuckets()
      requires Table()
      ensures forall k :: k in bucket ==> bucket[k] in blades && bucket[k].ttl == k
    {
    }

    lemma QueuedIn(b: Blade)
      requires Queues() && b in blades
      ensures forall t :: t in b.queue ==> t in timers
    {
    }

    lemma Listed()
      requires Live()
      ensures forall c :: c in order ==> c in blades
    {
    }

    // ---- Collecting what is due ----

    // The timers in `gone` are chained by `next` from `out`.
    static ghost predicate Chain(out: Timer?, gone: seq<Timer>)
      reads gone`next
    {
      if gone == [] then out == null
      else
        && out == gone[0] && gone[|gone| - 1].next == null
        && forall i {:trigger gone[i].next} :: 0 <= i < |gone| - 1 ==> gone[i].next == gone[i + 1]
    }

    // What has been taken out so far: each timer once, off the store, and chained if the caller
    // wants them.
    ghost predicate Gone(gone: seq<Timer>, out: Timer?, wantOut: bool)
      reads `timers, gone`next, gone`inStore
    {
      && NoDup(gone)
      && (forall t :: t in gone ==> t !in timers && !t.inStore)
      && (if wantOut then Chain(out, gone) else out == null)
    }

    // Takes the timer at the head of a bucket out of the store.
    method TakeHead(b: Blade) returns (n: Timer)
      requires Table() && Queues() && b in blades && b.queue != []
      modifies `timers, b`head, b`tail, b`queue, b.queue`next, b.queue`prev, b.queue`inStore
      ensures Table() && Queues()
      ensures n == old(b.queue)[0] && b.queue == old(b.queue)[1..] && !n.inStore
      ensures n in old(timers) && timers == old(timers) - {n}
      ensures b.head == null <==> b.queue == []
      ensures b.queue != [] ==> b.head == b.queue[0]
    {
      hide Table, Queues, QueueAt, TimerAt, Blade.Linked, InOrder;
      HeadInStore(b);
      ghost var rest := b.queue[1..];
      n := b.PopHead();
      b.HeadIs();
      n.inStore := false;
      timers := timers - {n};
      StillInOrder(rest);
      DequeueKeeps(b, n);
    }

    // Puts a fired timer in front of the caller's list, or leaves it loose if the caller has none.
    method Emit(n: Timer, wantOut: bool, out: Timer?, ghost gone: seq<Timer>) returns (out': Timer?)
      requires Gone(gone, out, wantOut) && n !in gone && n !in timers && !n.inStore
      requires Table() && Queues()
      modifies n`next, n`prev
      ensures Table() && Queues()
      ensures Gone([n] + gone, out', wantOut)
    {
      hide Table, Queues;
      out' := out;
      if wantOut {
        n.next := out';
        n.prev := null;
        out' := n;
      } else {
        n.next, n.prev := null, null;
      }
    }

    lemma HeadInStore(b: Blade)
      requires Queues() && b in blades && b.queue != []
      ensures b.Linked() && b.queue[0] in timers && b.queue[0].owner == b
      ensures InOrder(b.queue[1..])
      ensures forall t :: t in b.queue[1..] ==> t in b.queue && t != b.queue[0]
      ensures forall t :: t in b.queue && t != b.queue[0] ==> t in b.queue[1..]
    {
      assert QueueAt(b);
      NoDupTail(b.queue);
    }

    // `due` knows the deadline of every timer in the store.
    ghost predicate Knows(due: map<Timer, nat>)
      reads `timers, timers`expiration
    {
      forall t :: t in timers ==> t in due && due[t] == t.expiration
    }

    // The timers that were in the store have stayed or been fired, each at or after its deadline.
    static ghost predicate Accounted(was: set<Timer>, timers: set<Timer>, before: seq<Timer>, gone: seq<Timer>,
                                     due: map<Timer, nat>, at: nat)
    {
      && timers <= was && |timers| + |gone| == |was| + |before|
      && (forall t :: t in was ==> t in timers || t in gone)
      && (forall t :: t in gone ==> t in before || (t in was && t in due && due[t] <= at))
      && (forall t :: t in before ==> t in gone)
    }

    // Fires everything at the front of a bucket that is due by `at`.
    method DrainBucket(b: Blade, at: nat, wantOut: bool, out: Timer?, fired: nat, ghost gone: seq<Timer>,
                       ghost due: map<Timer, nat>)
      returns (out': Timer?, fired': nat, ghost gone': seq<Timer>)
      requires Table() && Queues() && b in blades
      requires Gone(gone, out, wantOut) && fired == |gone| && Knows(due)
      requires forall t :: t in b.queue ==> t in timers
      modifies `timers, b`head, b`tail, b`queue, b.queue`next, b.queue`prev, b.queue`inStore
      ensures Table() && Queues() && Gone(gone', out', wantOut) && fired' == |gone'| && Knows(due)
      ensures forall t :: t in old(b.queue) ==> t in due
      ensures b.queue == Keep(old(b.queue), due, at)
      ensures forall t :: t in b.queue ==> t in due && due[t] == t.expiration
      ensures Accounted(old(timers), timers, gone, gone', due, at)
      ensures b.head == null <==> b.queue == []
      ensures b.queue != [] ==> b.head == b.queue[0]
    {
      hide Table, Queues, Gone, Knows, Accounted;
      ghost var was := b.queue;
      ghost var k := 0;
      out', fired', gone' := out, fired, gone;
      HeadIsFirst(b);
      NoneGone(gone, due, at);
      InDue(b, due);
      while b.head != null && b.head.expiration <= at
        invariant Table() && Queues() && Gone(gone', out', wantOut) && fired' == |gone'| && Knows(due)
        invariant k <= |was| && b.queue == was[k..]
        invariant forall t :: t in b.queue ==> t in timers
        invariant Keep(b.queue, due, at) == Keep(was, due, at)
        invariant Accounted(old(timers), timers, gone, gone', due, at)
        invariant b.head == null <==> b.queue == []
        invariant b.queue != [] ==> b.head == b.queue[0]
        decreases |was| - k
      {
        assert was[k..][1..] == was[k + 1..];
        InDue(b, due);
        ghost var n, stock := b.queue[0], timers;
        out' := FireHead(b, wantOut, out', gone', due);
        OneMoreGone(old(timers), stock, gone, gone', due, at, n);
        gone' := [n] + gone';
        fired' := fired' + 1;
        k := k + 1;
      }
      InDue(b, due);
    }

    // Fires the timer at the head of a bucket.
    method FireHead(b: Blade, wantOut: bool, out: Timer?, ghost gone: seq<Timer>, ghost due: map<Timer, nat>)
      returns (out': Timer?)
      requires Table() && Queues() && b in blades && b.queue != []
      requires Gone(gone, out, wantOut) && Knows(due) && forall t :: t in b.queue ==> t in timers
      modifies `timers, b`head, b`tail, b`queue, b.queue`next, b.queue`prev, b.queue`inStore
      ensures Table() && Queues() && Gone([old(b.queue)[0]] + gone, out', wantOut) && Knows(due)
      ensures b.queue == old(b.queue)[1..]
      ensures old(b.queue)[0] in old(timers) && timers == old(timers) - {old(b.queue)[0]}
      ensures b.head == null <==> b.queue == []
      ensures b.queue != [] ==> b.head == b.queue[0]
      ensures forall t :: t in b.queue ==> t in timers
    {
      hide Table, Queues;
      assert forall t :: t in gone ==> t !in b.queue;
      var n := TakeHead(b);
      StillGone(gone, out, wantOut);
      QueueInStore(b);
      out' := Emit(n, wantOut, out, gone);
    }

    // What has been handed out is not touched again.
    twostate lemma StillGone(gone: seq<Timer>, new out: Timer?, new wantOut: bool)
      requires old(allocated(out)) && old(Gone(gone, out, wantOut)) && timers <= old(timers)
      requires forall t :: t in gone ==> t.next == old(t.next) && t.inStore == old(t.inStore)
      ensures Gone(gone, out, wantOut)
    {
    }

    lemma QueueInStore(b: Blade)
      requires Queues() && b in blades
      ensures forall t :: t in b.queue ==> t in timers
    {
    }

    lemma InDue(b: Blade, due: map<Timer, nat>)
      requires Knows(due) && forall t :: t in b.queue ==> t in timers
      ensures forall t :: t in b.queue ==> t in due && due[t] == t.expiration
    {
    }

    lemma NoneGone(gone: seq<Timer>, due: map<Timer, nat>, at: nat)
      ensures Accounted(timers, timers, gone, gone, due, at)
    {
    }

    static lemma OneMoreGone(was: set<Timer>, timers: set<Timer>, before: seq<Timer>, gone: seq<Timer>,
                             due: map<Timer, nat>, at: nat, n: Timer)
      requires Accounted(was, timers, before, gone, due, at)
      requires n in timers && n in due && due[n] <= at
      ensures Accounted(was, timers - {n}, before, [n] + gone, due, at)
    {
    }

    lemma HeadIsFirst(b: Blade)
      requires Queues() && b in blades
      ensures b.head == null <==> b.queue == []
      ensures b.queue != [] ==> b.head == b.queue[0]
    {
      assert QueueAt(b);
      b.HeadIs();
    }

    // ---- The store as a value ----

    ghost function Contents(): map<Blade, seq<Timer>>
      reads `blades, blades`queue
    {
      map b | b in blades :: b.queue
    }

    // The deadline of every timer in the store.
    ghost function Due(): map<Timer, nat>
      reads `timers, timers`expiration
    {
      map t | t in timers :: t.expiration
    }

    ghost function View(): View<Blade, Timer>
      reads `order, `nextExpiration, `blades, blades`queue
    {
      LawnView.View(order, Contents(), nextExpiration)
    }

    lemma ViewConsistent()
      requires Table() && Queues() && Live()
      ensures Consistent(View(), Due())
    {
      hide Blade.Linked, Table, Threaded;
      forall b | b in blades
        ensures BucketOk(View(), Due(), b)
      {
        assert QueueAt(b);
        forall t | t in b.queue
          ensures t in Due() && nextExpiration <= Due()[t] < TWO64
        {
          assert TimerAt(t);
        }
      }
      BucketsOk(View(), Due());
    }

    // One turn of the walk over the live list.
    method Visit(b: Blade, at: nat, wantOut: bool, out: Timer?, fired: nat, ne: nat, ghost gone: seq<Timer>,
                 ghost due: map<Timer, nat>)
      returns (out': Timer?, fired': nat, ne': nat, ghost gone': seq<Timer>)
      requires Table() && Queues() && Live() && b in order
      requires Gone(gone, out, wantOut) && fired == |gone| && Knows(due)
      modifies `timers, `liveHead, `order, b`head, b`tail, b`queue, b.queue`next, b.queue`prev, b.queue`inStore
      modifies order`livePrev, order`liveNext
      ensures Table() && Queues() && Live() && Gone(gone', out', wantOut) && fired' == |gone'| && Knows(due)
      ensures forall t :: t in old(b.queue) ==> t in due
      ensures b.queue == Keep(old(b.queue), due, at)
      ensures Accounted(old(timers), timers, gone, gone', due, at)
      ensures order == if b.queue == [] then Without(old(order), b) else old(order)
      ensures ne' == if b.queue != [] && b.queue[0] in due && due[b.queue[0]] < ne then due[b.queue[0]] else ne
    {
      hide Table, Queues, Live, Gone, Accounted, Keep, Without;
      ListedQueue(b);
      out', fired', gone' := DrainBucket(b, at, wantOut, out, fired, gone, due);
      LiveElsewhere(b);
      ne' := ne;
      if b.head == null {
        Delist(b);
      } else {
        ne' := if b.head.expiration < ne then b.head.expiration else ne;
      }
    }

    lemma ListedQueue(b: Blade)
      requires Queues() && Live() && b in order
      ensures b in blades && b.queue != [] && forall t :: t in b.queue ==> t in timers
    {
    }

    // The buckets `b` is followed by on the live list.
    lemma NextLive(p: nat)
      requires Live() && p < |order|
      ensures order[p].liveNext == if p + 1 < |order| then order[p + 1] else null
    {
    }

    lemma LiveHeadIs()
      requires Live()
      ensures NoDup(order) && liveHead == if order == [] then null else order[0]
    {
    }

    // Takes one more step of the walk and moves on to the next bucket.
    method VisitNext(b: Blade, at: nat, wantOut: bool, out: Timer?, fired: nat, ne: nat, ghost gone: seq<Timer>,
                     ghost due: map<Timer, nat>,
                     ghost was: View<Blade, Timer>, ghost k: nat)
      returns (next: Blade?, out': Timer?, fired': nat, ne': nat, ghost gone': seq<Timer>)
      requires Table() && Queues() && Live()
      requires Gone(gone, out, wantOut) && fired == |gone| && Knows(due)
      requires Walk(was, k, due, at, order, Contents(), ne) && k < |was.order| && b == was.order[k]
      modifies `timers, `liveHead, `order, b`head, b`tail, b`queue, b.queue`next, b.queue`prev, b.queue`inStore
      modifies order`livePrev, order`liveNext
      ensures Table() && Queues() && Live() && Gone(gone', out', wantOut) && fired' == |gone'| && Knows(due)
      ensures Accounted(old(timers), timers, gone, gone', due, at)
      ensures Walk(was, k + 1, due, at, order, Contents(), ne')
      ensures next == if k + 1 < |was.order| then was.order[k + 1] else null
    {
      hide Table, Queues, Live, Gone, Accounted, Keep, Without, Knows, Walk;
      ghost var p := WalkNow(was, k, due, at, order, Contents(), ne);
      NextLive(p);
      next := b.liveNext;
      WalkStep(was, k, due, at, order, Contents(), ne);
      out', fired', ne', gone' := Visit(b, at, wantOut, out, fired, ne, gone, due);
      assert Contents() == old(Contents())[b := b.queue];
    }

    // Walks the whole live list, firing what is due by `at`.
    method WalkLive(at: nat, wantOut: bool) returns (fired: nat, out: Timer?, ne: nat, ghost gone: seq<Timer>)
      requires Table() && Queues() && Live() && nextExpiration <= at
      modifies `timers, `liveHead, `order
      modifies blades`head, blades`tail, blades`queue, blades`livePrev, blades`liveNext
      modifies timers`next, timers`prev, timers`inStore
      ensures Table() && Queues() && Live() && Gone(gone, out, wantOut) && fired == |gone|
      ensures Accounted(old(timers), timers, [], gone, old(Due()), at) && Knows(old(Due()))
      ensures Known(old(View()), old(Due()))
      ensures LawnView.View(order, Contents(), ne) == Collect(old(View()), old(Due()), at)
    {
      hide Table, Queues, Live, Gone, Accounted, Walk;
      ghost var was, due, k := View(), Due(), 0;
      ViewConsistent();
      LiveHeadIs();
      WithinStore();
      WalkStart(was, due, at);
      out, gone, fired, ne := null, [], 0, UINT64_MAX;
      NoneGone([], due, at);
      NothingGone(wantOut);
      var b := liveHead;
      while b != null
        invariant Table() && Queues() && Live() && Gone(gone, out, wantOut) && fired == |gone| && Knows(due)
        invariant Accounted(old(timers), timers, [], gone, due, at)
        invariant k <= |was.order| && Walk(was, k, due, at, order, Contents(), ne)
        invariant b == if k < |was.order| then was.order[k] else null
        decreases |was.order| - k
      {
        ghost var stock, before := timers, gone;
        WithinStore();
        AccountedSubset(old(timers), timers, gone, due, at);
        b, out, fired, ne, gone := VisitNext(b, at, wantOut, out, fired, ne, gone, due, was, k);
        AccountedTwice(old(timers), stock, timers, before, gone, due, at);
        k := k + 1;
      }
      WalkEnd(was, due, at, order, Contents(), ne);
    }

    lemma WithinStore()
      requires Queues() && Live()
      ensures forall i :: 0 <= i < |order| ==> order[i] in blades
      ensures forall b :: b in blades ==> forall i :: 0 <= i < |b.queue| ==> b.queue[i] in timers
    {
    }

    static lemma AccountedSubset(was: set<Timer>, timers: set<Timer>, gone: seq<Timer>, due: map<Timer, nat>, at: nat)
      requires Accounted(was, timers, [], gone, due, at)
      ensures timers <= was
    {
    }

    static lemma AccountedTwice(was: set<Timer>, mid: set<Timer>, timers: set<Timer>, before: seq<Timer>,
                                gone: seq<Timer>, due: map<Timer, nat>, at: nat)
      requires Accounted(was, mid, [], before, due, at) && Accounted(mid, timers, before, gone, due, at)
      ensures Accounted(was, timers, [], gone, due, at)
    {
    }

    lemma NothingGone(wantOut: bool)
      ensures Gone([], null, wantOut)
    {
    }

    // Records the earliest deadline left as the new lower bound.
    method SetNext(ne: nat)
      requires Table() && Queues() && Live() && forall t :: t in timers ==> ne <= t.expiration
      modifies `nextExpiration
      ensures Table() && Queues() && Live() && nextExpiration == ne
    {
      hide Table, Live, Blade.Linked, InOrder;
      nextExpiration := ne;
      forall c | c in blades
        ensures QueueAt(c)
      {
        assert old(QueueAt(c));
      }
      forall t | t in timers
        ensures TimerAt(t)
      {
        assert old(TimerAt(t));
      }
    }

    // `collect_expired`: fires everything due by `at`, and nothing else, whether or not the cached
    // bound cuts the walk short.
    method CollectExpired(at: nat, wantOut: bool) returns (fired: nat, out: Timer?, ghost gone: seq<Timer>)
      requires Valid()
      modifies `timers, `live, `nextExpiration, `liveHead, `order
      modifies blades`head, blades`tail, blades`queue, blades`livePrev, blades`liveNext
      modifies timers`next, timers`prev, timers`inStore
      ensures Valid() && |timers| == |old(timers)| - fired
      ensures fired == |gone| && Gone(gone, out, wantOut)
      ensures Known(old(View()), old(Due())) && View() == Collect(old(View()), old(Due()), at)
      ensures timers <= old(timers) && forall t :: t in old(timers) ==> (t in timers <==> t.expiration > at)
      ensures forall t :: t in gone ==> t in old(timers) && t.expiration <= at
      ensures forall t :: t in old(timers) && t.expiration <= at ==> t in gone
    {
      hide Table, Queues, Live, Gone, Collect;
      ViewConsistent();
      if at < nextExpiration {
        NothingGone(wantOut);
        NoneDue(at);
        TooEarly(View(), Due(), at);
        return 0, null, [];
      }
      fired, out, gone := CollectDue(at, wantOut);
      live := live - fired;
    }

    // The walk, when there may be something to fire.
    method CollectDue(at: nat, wantOut: bool) returns (fired: nat, out: Timer?, ghost gone: seq<Timer>)
      requires Table() && Queues() && Live() && nextExpiration <= at
      modifies `timers, `nextExpiration, `liveHead, `order
      modifies blades`head, blades`tail, blades`queue, blades`livePrev, blades`liveNext
      modifies timers`next, timers`prev, timers`inStore
      ensures Table() && Queues() && Live() && nextExpiration < TWO64
      ensures fired == |gone| && Gone(gone, out, wantOut) && |timers| == |old(timers)| - fired
      ensures Known(old(View()), old(Due())) && View() == Collect(old(View()), old(Due()), at)
      ensures timers <= old(timers) && forall t :: t in old(timers) ==> (t in timers <==> t.expiration > at)
      ensures forall t :: t in gone ==> t in old(timers) && t.expiration <= at
      ensures forall t :: t in old(timers) && t.expiration <= at ==> t in gone
    {
      hide Table, Queues, Live, Gone, Accounted, Collect;
      ghost var was, due := View(), Due();
      ViewConsistent();
      var ne;
      fired, out, ne, gone := WalkLive(at, wantOut);
      AfterWalk(was, due, at, ne);
      AllAccounted(old(timers), timers, gone, due, at);
      SetNext(ne);
    }

    lemma NoneDue(at: nat)
      requires Queues() && at < nextExpiration
      ensures forall t :: t in timers ==> t.expiration > at
    {
      hide QueueAt;
      forall t | t in timers
        ensures t.expiration > at
      {
        assert TimerAt(t);
      }
    }

    // What is left after a walk is in the future, and not before the recomputed bound.
    lemma AfterWalk(was: View<Blade, Timer>, due: map<Timer, nat>, at: nat, ne: nat)
      requires Queues() && Consistent(was, due) && was.next <= at
      requires LawnView.View(order, Contents(), ne) == Collect(was, due, at) && Knows(due)
      ensures ne < TWO64 && forall t :: t in timers ==> ne <= t.expiration && at < t.expiration
    {
      hide QueueAt;
      CollectConsistent(was, due, at);
      forall t | t in timers
        ensures ne <= t.expiration && at < t.expiration
      {
        assert TimerAt(t);
        var b: Blade := t.owner;
        assert t in Contents()[b];
        assert b in was.queue && t in was.queue[b];
        CollectExact(was, due, at, b, t);
      }
    }

    static lemma AllAccounted(was: set<Timer>, timers: set<Timer>, gone: seq<Timer>, due: map<Timer, nat>, at: nat)
      requires Accounted(was, timers, [], gone, due, at)
      ensures timers <= was && |timers| == |was| - |gone|
      ensures forall t :: t in was ==> t in timers || t in gone
      ensures forall t :: t in gone ==> t in was && t in due && due[t] <= at
    {
    }

    // ---- The clock ----

    // Moves the clock without firing anything.
    method SetNow(now: nat)
      requires Valid() && this.now <= now < TWO64
      modifies `now
      ensures Valid() && this.now == now
    {
      hide Table, Live, Blade.Linked, InOrder;
      this.now := now;
      forall c | c in blades
        ensures QueueAt(c)
      {
        assert old(QueueAt(c));
      }
      forall t | t in timers
        ensures TimerAt(t)
      {
        assert old(TimerAt(t));
      }
    }

    // One tick.
    method Tick(wantOut: bool) returns (fired: nat, out: Timer?, ghost gone: seq<Timer>)
      requires Valid() && now + 1 < TWO64
      modifies `now, `timers, `live, `nextExpiration, `liveHead, `order
      modifies blades`head, blades`tail, blades`queue, blades`livePrev, blades`liveNext
      modifies timers`next, timers`prev, timers`inStore
      ensures Valid() && now == old(now) + 1
      ensures |timers| == |old(timers)| - fired
      ensures fired == |gone| && Gone(gone, out, wantOut)
      ensures Known(old(View()), old(Due())) && View() == Collect(old(View()), old(Due()), now)
      ensures timers <= old(timers) && forall t :: t in old(timers) ==> (t in timers <==> t.expiration > now)
      ensures forall t :: t in gone ==> t in old(timers) && t.expiration <= now
      ensures forall t :: t in old(timers) && t.expiration <= now ==> t in gone
    {
      hide Valid, Gone, Collect;
      SetNow(now + 1);
      fired, out, gone := CollectExpired(now, wantOut);
    }

    // Jumps the clock; a target that is not ahead is ignored.
    method Advance(target: nat, wantOut: bool) returns (fired: nat, out: Timer?, ghost gone: seq<Timer>)
      requires Valid() && target < TWO64
      modifies `now, `timers, `live, `nextExpiration, `liveHead, `order
      modifies blades`head, blades`tail, blades`queue, blades`livePrev, blades`liveNext
      modifies timers`next, timers`prev, timers`inStore
      ensures Valid() && now == (if target <= old(now) then old(now) else target)
      ensures fired == |gone| && Gone(gone, out, wantOut)
      ensures target <= old(now) ==> gone == [] && timers == old(timers) && View() == old(View())
      ensures |timers| == |old(timers)| - fired
      ensures target > old(now) ==> Known(old(View()), old(Due())) && View() == Collect(old(View()), old(Due()), target)
      ensures target > old(now) ==> timers <= old(timers)
      ensures target > old(now) ==> forall t :: t in old(timers) ==> (t in timers <==> t.expiration > target)
      ensures target > old(now) ==> forall t :: t in gone ==> t in old(timers) && t.expiration <= target
      ensures target > old(now) ==> forall t :: t in old(timers) && t.expiration <= target ==> t in gone
    {
      hide Valid, Gone, Collect;
      if target <= now {
        NothingGone(wantOut);
        return 0, null, [];
      }
      SetNow(target);
      fired, out, gone := CollectExpired(target, wantOut);
    }

    // `n` ticks leave the store in the very state one jump does: the same queues, the same live
    // list in the same order, the same cached bound, the same clock and size, and the same timers
    // fired.
    method TickMany(n: nat) returns (fired: nat)
      requires Valid() && n > 0 && now + n < TWO64
      modifies `now, `timers, `live, `nextExpiration, `liveHead, `order
      modifies blades`head, blades`tail, blades`queue, blades`livePrev, blades`liveNext
      modifies timers`next, timers`prev, timers`inStore
      ensures Valid() && now == old(now) + n
      ensures Known(old(View()), old(Due())) && View() == Collect(old(View()), old(Due()), now)
      ensures timers <= old(timers) && forall t :: t in old(timers) ==> (t in timers <==> t.expiration > now)
      ensures fired == |old(timers)| - |timers|
    {
      hide Valid, Gone, Collect, Consistent;
      ghost var was, due, start := View(), Due(), now;
      StoreConsistent();
      fired := 0;
      var i := 0;
      while i < n
        invariant i <= n && Valid() && now == start + i && Knows(due)
        invariant if i == 0 then View() == was else Known(was, due) && View() == Collect(was, due, start + i)
        invariant timers <= old(timers)
        invariant forall t :: t in old(timers) ==> (t in timers <==> i == 0 || t.expiration > now)
        invariant fired == |old(timers)| - |timers|
      {
        ghost var v, d := View(), Due();
        DueAgrees(due);
        var f, out;
        ghost var gone;
        f, out, gone := Tick(false);
        fired := fired + f;
        CollectAgree(v, d, due, now);
        if i > 0 {
          CollectCompose(was, due, start + i, start + i + 1);
        }
        i := i + 1;
      }
    }

    lemma StoreConsistent()
      requires Valid()
      ensures Consistent(View(), Due()) && Known(View(), Due())
    {
      hide Table, Queues, Live;
      ViewConsistent();
    }

    lemma DueAgrees(due: map<Timer, nat>)
      requires Valid() && Knows(due)
      ensures Agree(View(), Due(), due)
    {
      hide QueueAt, TimerAt, Table, Live;
    }
  }

  lemma Differ<T>(s: seq<T>, k: int)
    requires NoDup(s)
    ensures 0 <= k < |s| ==> forall i :: 0 <= i < |s| && i != k ==> s[i] != s[k]
  {
  }

  // `s` without its element number `k`.
  ghost function CutOut<T>(s: seq<T>, k: nat): (r: seq<T>)
    requires k < |s|
  {
    s[..k] + s[k + 1..]
  }

  lemma CutOutIs<T>(s: seq<T>, k: nat)
    requires NoDup(s) && k < |s|
    ensures NoDup(CutOut(s, k)) && |CutOut(s, k)| == |s| - 1
    ensures forall i :: 0 <= i < k ==> CutOut(s, k)[i] == s[i]
    ensures forall i :: k <= i < |s| - 1 ==> CutOut(s, k)[i] == s[i + 1]
    ensures CutOut(s, k) == Without(s, s[k])
  {
    WithoutAt(s, k);
  }

  lemma {:induction false} WithoutAt<T>(s: seq<T>, k: nat)
    requires NoDup(s) && k < |s|
    ensures Without(s, s[k]) == s[..k] + s[k + 1..]
  {
    if k > 0 {
      WithoutAt(s[1..], k - 1);
      assert s[1..][..k - 1] == s[1..k];
      assert [s[0]] + s[1..k] == s[..k];
    }
  }
}
