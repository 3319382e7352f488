// What a Lawn store holds, as a value: the queues of its non-empty buckets in live-list order, and
// the cached lower bound on the earliest deadline. `B` is the type of buckets and `T` that of
// timers. `Collect` says what one call of `collect_expired` makes of the store; the lemmas say that
// it removes exactly what is due and that one long jump of the clock is the same as many short
// ones.
module LawnView {
  import opened Words
  import opened Lists

  const UINT64_MAX: nat := TWO64 - 1

  datatype View<B(==), T> = View(order: seq<B>, queue: map<B, seq<T>>, next: nat)

  // The part of a queue that is not due: the due timers are at its front.
  function Keep<T(==)>(q: seq<T>, due: map<T, nat>, now: nat): (r: seq<T>)
    requires forall t :: t in q ==> t in due
    ensures forall t :: t in r ==> t in q
  {
    if q == [] then [] else if due[q[0]] <= now then Keep(q[1..], due, now) else q
  }

  // The queue is in deadline order.
  ghost predicate Sorted<T>(q: seq<T>, due: map<T, nat>)
    requires forall t :: t in q ==> t in due
  {
    forall i, j :: 0 <= i < j < |q| ==> due[q[i]] <= due[q[j]]
  }

  // The buckets that still hold something, in the same order.
  function NonEmpty<B(==), T>(order: seq<B>, queue: map<B, seq<T>>): (r: seq<B>)
    requires forall b :: b in order ==> b in queue
    ensures forall b :: b in r ==> b in order && queue[b] != []
    ensures forall b :: b in order && queue[b] != [] ==> b in r
  {
    assert order != [] ==> order == [order[0]] + order[1..];
    if order == [] then []
    else if queue[order[0]] == [] then NonEmpty(order[1..], queue)
    else [order[0]] + NonEmpty(order[1..], queue)
  }

  // The earliest deadline at the head of a queue; the largest word if there is none.
  function Earliest<B(==), T(==)>(order: seq<B>, queue: map<B, seq<T>>, due: map<T, nat>): (e: nat)
    requires forall b :: b in order ==> b in queue
    requires forall b, t :: b in order && t in queue[b] ==> t in due
    ensures e <= UINT64_MAX
  {
    if order == [] then UINT64_MAX
    else
      var rest := Earliest(order[1..], queue, due);
      if queue[order[0]] != [] && due[queue[order[0]][0]] < rest then due[queue[order[0]][0]] else rest
  }

  // Every deadline is known.
  ghost predicate Known<B, T>(v: View<B, T>, due: map<T, nat>)
  {
    && (forall b :: b in v.order ==> b in v.queue)
    && (forall b :: b in v.queue ==> forall t :: t in v.queue[b] ==> t in due)
  }

  // A queue in deadline order, none of whose deadlines is below `least`.
  ghost predicate QueueOk<T>(q: seq<T>, due: map<T, nat>, least: nat)
    requires forall t :: t in q ==> t in due
  {
    Sorted(q, due) && forall t :: t in q ==> least <= due[t] < TWO64
  }

  // A consistent view: the live list names exactly the non-empty queues, each is sorted, and no
  // deadline is below the cached bound.
  ghost predicate Consistent<B, T>(v: View<B, T>, due: map<T, nat>)
  {
    && Known(v, due)
    && (forall b :: b in v.queue ==> (v.queue[b] != [] <==> b in v.order))
    && (forall b :: b in v.queue ==> QueueOk(v.queue[b], due, v.next))
  }

  // Every queue cut back to what is not due by `now`.
  function KeepAll<B, T(==)>(queue: map<B, seq<T>>, due: map<T, nat>, now: nat): (r: map<B, seq<T>>)
    requires forall b :: b in queue ==> forall t :: t in queue[b] ==> t in due
    ensures r.Keys == queue.Keys
    ensures forall b :: b in queue ==> forall t :: t in r[b] ==> t in queue[b] && t in due
  {
    map b | b in queue :: Keep(queue[b], due, now)
  }

  // One `collect_expired`: nothing at all before the cached bound, otherwise a walk over the live
  // list.
  ghost function Collect<B, T>(v: View<B, T>, due: map<T, nat>, now: nat): View<B, T>
    requires Known(v, due)
  {
    if now < v.next then v
    else
      var q := KeepAll(v.queue, due, now);
      View(NonEmpty(v.order, q), q, Earliest(v.order, q, due))
  }

  // `n` ticks from `now`.
  ghost function Ticks<B, T>(v: View<B, T>, due: map<T, nat>, now: nat, n: nat): View<B, T>
    requires Consistent(v, due)
    decreases n
  {
    if n == 0 then v
    else
      CollectConsistent(v, due, now + 1);
      Ticks(Collect(v, due, now + 1), due, now + 1, n - 1)
  }

  // ---- Queues ----

  lemma {:induction false} KeepIs<T>(q: seq<T>, due: map<T, nat>, now: nat) returns (k: nat)
    requires forall t :: t in q ==> t in due
    ensures k <= |q| && Keep(q, due, now) == q[k..]
    ensures forall i :: 0 <= i < k ==> due[q[i]] <= now
    ensures k < |q| ==> due[q[k]] > now
  {
    if q != [] && due[q[0]] <= now {
      var j := KeepIs(q[1..], due, now);
      k := j + 1;
      assert q[1..][j..] == q[k..];
      forall i | 0 <= i < k
        ensures due[q[i]] <= now
      {
        if i > 0 {
          assert q[i] == q[1..][i - 1];
        }
      }
    } else {
      k := 0;
    }
  }

  // What is kept of a sorted queue is exactly what is not due.
  lemma KeepSorted<T>(q: seq<T>, due: map<T, nat>, now: nat, least: nat)
    requires forall t :: t in q ==> t in due
    requires QueueOk(q, due, least)
    ensures forall t :: t in Keep(q, due, now) ==> t in q && due[t] > now
    ensures forall t :: t in q && due[t] > now ==> t in Keep(q, due, now)
    ensures QueueOk(Keep(q, due, now), due, least)
  {
    var k := KeepIs(q, due, now);
  }

  lemma {:induction false} KeepKeep<T>(q: seq<T>, due: map<T, nat>, a: nat, b: nat)
    requires a <= b && forall t :: t in q ==> t in due
    ensures forall t :: t in Keep(q, due, a) ==> t in due
    ensures Keep(Keep(q, due, a), due, b) == Keep(q, due, b)
  {
    if q != [] {
      KeepKeep(q[1..], due, a, b);
    }
  }

  // ---- The live list ----

  // Dropping the empty buckets in two passes is dropping them in one.
  lemma {:induction false} NonEmptyTwice<B, T>(order: seq<B>, q: map<B, seq<T>>, q': map<B, seq<T>>)
    requires forall b :: b in order ==> b in q && b in q'
    requires forall b :: b in order && q[b] == [] ==> q'[b] == []
    ensures NonEmpty(NonEmpty(order, q), q') == NonEmpty(order, q')
  {
    if order != [] {
      assert order == [order[0]] + order[1..];
      NonEmptyTwice(order[1..], q, q');
      if q[order[0]] != [] {
        assert ([order[0]] + NonEmpty(order[1..], q))[1..] == NonEmpty(order[1..], q);
      }
    }
  }

  // Empty buckets do not count for the earliest deadline.
  lemma {:induction false} EarliestNonEmpty<B, T>(order: seq<B>, q: map<B, seq<T>>, q': map<B, seq<T>>,
                                                  due: map<T, nat>)
    requires forall b :: b in order ==> b in q && b in q'
    requires forall b :: b in order && q[b] == [] ==> q'[b] == []
    requires forall b :: b in order ==> forall t :: t in q'[b] ==> t in due
    ensures Earliest(NonEmpty(order, q), q', due) == Earliest(order, q', due)
  {
    if order != [] {
      assert order == [order[0]] + order[1..];
      EarliestNonEmpty(order[1..], q, q', due);
      if q[order[0]] != [] {
        assert ([order[0]] + NonEmpty(order[1..], q))[1..] == NonEmpty(order[1..], q);
      }
    }
  }

  // No deadline on the listed queues is before the earliest one.
  lemma {:induction false} EarliestBelow<B, T>(order: seq<B>, queue: map<B, seq<T>>, due: map<T, nat>, b: B, t: T)
    requires forall c :: c in order ==> c in queue
    requires forall c :: c in order ==> forall u :: u in queue[c] ==> u in due
    requires b in order && t in queue[b] && Sorted(queue[b], due)
    ensures Earliest(order, queue, due) <= due[t]
  {
    assert order == [order[0]] + order[1..];
    if order[0] == b {
      var i :| 0 <= i < |queue[b]| && queue[b][i] == t;
    } else {
      EarliestBelow(order[1..], queue, due, b, t);
    }
  }

  // The earliest deadline is one of the listed ones, unless nothing is listed.
  lemma {:induction false} EarliestIs<B, T>(order: seq<B>, queue: map<B, seq<T>>, due: map<T, nat>)
    requires forall c :: c in order ==> c in queue
    requires forall c :: c in order ==> forall u :: u in queue[c] ==> u in due
    ensures Earliest(order, queue, due) == UINT64_MAX
            || exists b :: b in order && queue[b] != [] && Earliest(order, queue, due) == due[queue[b][0]]
  {
    if order != [] {
      assert order == [order[0]] + order[1..];
      EarliestIs(order[1..], queue, due);
    }
  }

  lemma {:induction false} NonEmptyAppend<B, T>(order: seq<B>, b: B, queue: map<B, seq<T>>)
    requires b in queue && forall c :: c in order ==> c in queue
    ensures NonEmpty(order + [b], queue) == NonEmpty(order, queue) + (if queue[b] == [] then [] else [b])
  {
    if order != [] {
      assert order + [b] == [order[0]] + (order[1..] + [b]);
      NonEmptyAppend(order[1..], b, queue);
    } else {
      assert NonEmpty([b], queue) == if queue[b] == [] then [] else [b];
    }
  }

  lemma {:induction false} EarliestAppend<B, T>(order: seq<B>, b: B, queue: map<B, seq<T>>, due: map<T, nat>)
    requires b in queue && forall c :: c in order ==> c in queue
    requires forall c :: c in order + [b] ==> forall u :: u in queue[c] ==> u in due
    requires forall u :: u in queue[b] ==> due[u] < TWO64
    ensures Earliest(order + [b], queue, due) ==
            if queue[b] != [] && due[queue[b][0]] < Earliest(order, queue, due) then due[queue[b][0]]
            else Earliest(order, queue, due)
  {
    if order != [] {
      assert order + [b] == [order[0]] + (order[1..] + [b]);
      EarliestAppend(order[1..], b, queue, due);
    } else {
      assert Earliest([b], queue, due) == if queue[b] != [] && due[queue[b][0]] < UINT64_MAX
                then due[queue[b][0]] else UINT64_MAX;
    }
  }

  // ---- Collecting ----

  lemma CollectConsistent<B, T>(v: View<B, T>, due: map<T, nat>, now: nat)
    requires Consistent(v, due)
    ensures Consistent(Collect(v, due, now), due)
  {
    if now >= v.next {
      var w := Collect(v, due, now);
      OrderKept(v, due, now);
      forall b | b in w.queue
        ensures BucketOk(w, due, b)
      {
        QueueKept(v, due, now, b);
      }
      BucketsOk(w, due);
    }
  }

  // A collection that walks leaves the exact bound: not above any deadline left, and one of them
  // unless none is left.
  lemma CollectNext<B, T>(v: View<B, T>, due: map<T, nat>, now: nat)
    requires Consistent(v, due) && now >= v.next
    ensures var w := Collect(v, due, now);
            && (forall b :: b in w.queue ==> forall t :: t in w.queue[b] ==> w.next <= due[t])
            && (w.next == UINT64_MAX || exists b :: b in w.order && w.queue[b] != [] && w.next == due[w.queue[b][0]])
            && (w.order == [] ==> w.next == UINT64_MAX)
  {
    CollectConsistent(v, due, now);
    var w := Collect(v, due, now);
    var q := KeepAll(v.queue, due, now);
    EarliestNonEmpty(v.order, q, q, due);
    EarliestIs(w.order, q, due);
    forall b | b in w.queue
      ensures forall t :: t in w.queue[b] ==> w.next <= due[t]
    {
      assert QueueOk(w.queue[b], due, w.next);
    }
  }

  // What consistency asks of one bucket.
  ghost predicate BucketOk<B, T>(v: View<B, T>, due: map<T, nat>, b: B)
    requires b in v.queue
  {
    && (forall t :: t in v.queue[b] ==> t in due)
    && QueueOk(v.queue[b], due, v.next)
    && (v.queue[b] != [] <==> b in v.order)
  }

  lemma BucketsOk<B, T>(v: View<B, T>, due: map<T, nat>)
    requires forall b :: b in v.order ==> b in v.queue
    requires forall b :: b in v.queue ==> BucketOk(v, due, b)
    ensures Consistent(v, due)
  {
    hide QueueOk;
    assert Known(v, due);
  }

  lemma OrderKept<B, T>(v: View<B, T>, due: map<T, nat>, now: nat)
    requires Known(v, due) && now >= v.next
    ensures forall b :: b in Collect(v, due, now).order ==> b in Collect(v, due, now).queue
  {
  }

  lemma QueueKept<B, T>(v: View<B, T>, due: map<T, nat>, now: nat, b: B)
    requires Consistent(v, due) && b in v.queue && now >= v.next
    ensures BucketOk(Collect(v, due, now), due, b)
  {
    var q := KeepAll(v.queue, due, now);
    KeepSorted(v.queue[b], due, now, v.next);
    forall t | t in q[b]
      ensures Earliest(v.order, q, due) <= due[t]
    {
      EarliestBelow(v.order, q, due, b, t);
    }
  }

  // Exactly the due timers leave, whether or not the cached bound cuts the walk short.
  lemma CollectExact<B, T>(v: View<B, T>, due: map<T, nat>, now: nat, b: B, t: T)
    requires Consistent(v, due) && b in v.queue && t in v.queue[b]
    ensures t in Collect(v, due, now).queue[b] <==> due[t] > now
  {
    if now >= v.next {
      KeepSorted(v.queue[b], due, now, v.next);
    }
  }

  lemma {:induction false} NoneEmpty<B, T>(order: seq<B>, queue: map<B, seq<T>>)
    requires forall b :: b in order ==> b in queue && queue[b] != []
    ensures NonEmpty(order, queue) == order
  {
    if order != [] {
      NoneEmpty(order[1..], queue);
      assert order == [order[0]] + order[1..];
    }
  }

  lemma {:induction false} EarliestAbove<B, T>(order: seq<B>, queue: map<B, seq<T>>, due: map<T, nat>, least: nat)
    requires least <= UINT64_MAX && forall b :: b in order ==> b in queue
    requires forall b, t :: b in order && t in queue[b] ==> t in due && least <= due[t]
    ensures least <= Earliest(order, queue, due)
  {
    if order != [] {
      EarliestAbove(order[1..], queue, due, least);
      var q := queue[order[0]];
      assert q != [] ==> order[0] in order && q[0] in q;
    }
  }

  // Returning before the cached bound loses nothing: the walk would take out no timer, leave every
  // queue and the live list as they are, and could only raise the bound.
  lemma TooEarly<B, T>(v: View<B, T>, due: map<T, nat>, now: nat)
    requires Consistent(v, due) && now < v.next <= UINT64_MAX
    ensures KeepAll(v.queue, due, now) == v.queue
    ensures NonEmpty(v.order, v.queue) == v.order
    ensures v.next <= Earliest(v.order, v.queue, due)
    ensures Collect(v, due, now) == v
  {
    forall b | b in v.queue
      ensures Keep(v.queue[b], due, now) == v.queue[b]
    {
      assert QueueOk(v.queue[b], due, v.next);
      assert v.queue[b] != [] ==> v.queue[b][0] in v.queue[b];
    }
    assert KeepAll(v.queue, due, now) == v.queue;
    NoneEmpty(v.order, v.queue);
    EarliestAbove(v.order, v.queue, due, v.next);
  }

  // Collecting at `a` and then at `b` is collecting at `b`.
  lemma CollectCompose<B, T>(v: View<B, T>, due: map<T, nat>, a: nat, b: nat)
    requires Consistent(v, due) && a <= b
    ensures Known(Collect(v, due, a), due)
    ensures Collect(Collect(v, due, a), due, b) == Collect(v, due, b)
  {
    CollectConsistent(v, due, a);
    if a >= v.next {
      var q, q' := KeepAll(v.queue, due, a), KeepAll(v.queue, due, b);
      forall c | c in v.queue
        ensures Keep(q[c], due, b) == q'[c]
      {
        KeepKeep(v.queue[c], due, a, b);
      }
      assert KeepAll(q, due, b) == q';
      NonEmptyTwice(v.order, q, q');
      EarliestNonEmpty(v.order, q, q', due);
      if b < Collect(v, due, a).next {
        NothingDue(v, due, a, b);
      }
    }
  }

  // If nothing is due between `a` and `b`, collecting at either is the same.
  lemma NothingDue<B, T>(v: View<B, T>, due: map<T, nat>, a: nat, b: nat)
    requires Consistent(v, due) && v.next <= a <= b < Collect(v, due, a).next
    ensures Collect(v, due, a) == Collect(v, due, b)
  {
    CollectConsistent(v, due, a);
    var w := Collect(v, due, a);
    forall c | c in v.queue
      ensures Keep(v.queue[c], due, a) == Keep(v.queue[c], due, b)
    {
      KeepKeep(v.queue[c], due, a, b);
      KeepLater(w.queue[c], due, b, w.next);
    }
    assert KeepAll(v.queue, due, a) == KeepAll(v.queue, due, b);
  }

  lemma KeepLater<T>(q: seq<T>, due: map<T, nat>, now: nat, least: nat)
    requires forall t :: t in q ==> t in due
    requires QueueOk(q, due, least) && now < least
    ensures Keep(q, due, now) == q
  {
    if q != [] {
      assert q[0] in q;
    }
  }

  // Jumping the clock is the same as ticking all the way: same queues, same live list in the same
  // order, same cached bound, from every consistent store, however stale its bound is.
  lemma {:induction false} JumpIsTicks<B, T>(v: View<B, T>, due: map<T, nat>, now: nat, n: nat)
    requires Consistent(v, due) && n > 0
    ensures Collect(v, due, now + n) == Ticks(v, due, now, n)
    decreases n
  {
    hide Collect, QueueOk, Known;
    CollectConsistent(v, due, now + 1);
    if n > 1 {
      JumpIsTicks(Collect(v, due, now + 1), due, now + 1, n - 1);
      CollectCompose(v, due, now + 1, now + n);
    }
  }

  // ---- The walk over the live list ----

  // The visited buckets that still hold something, then the ones to come.
  ghost predicate WalkedOrder<B, T>(was: seq<B>, k: nat, all: map<B, seq<T>>, order: seq<B>)
    requires k <= |was| && forall b :: b in was ==> b in all
  {
    order == NonEmpty(was[..k], all) + was[k..]
  }

  // The visited queues cut back to `all`, the others still as in `queue`.
  ghost predicate WalkedQueues<B, T>(was: seq<B>, k: nat, queue: map<B, seq<T>>, all: map<B, seq<T>>,
                                     queue': map<B, seq<T>>)
    requires k <= |was|
  {
    && queue'.Keys == queue.Keys == all.Keys
    && (forall b :: b in queue && b in was[..k] ==> queue'[b] == all[b])
    && (forall b :: b in queue && b !in was[..k] ==> queue'[b] == queue[b])
  }

  // Where a walk stands that has visited the first `k` buckets of the live list of `was`: those
  // have been cut back, the others are as they were, and `ne` is the earliest deadline left on the
  // visited ones.
  ghost predicate Walk<B, T>(was: View<B, T>, k: nat, due: map<T, nat>, at: nat, order: seq<B>,
                             queue: map<B, seq<T>>, ne: nat)
  {
    && Consistent(was, due) && NoDup(was.order) && k <= |was.order|
    && var all := KeepAll(was.queue, due, at);
    && WalkedOrder(was.order, k, all, order)
    && WalkedQueues(was.order, k, was.queue, all, queue)
    && ne == Earliest(was.order[..k], all, due)
  }

  lemma WalkStart<B, T>(was: View<B, T>, due: map<T, nat>, at: nat)
    requires Consistent(was, due) && NoDup(was.order)
    ensures Walk(was, 0, due, at, was.order, was.queue, UINT64_MAX)
  {
    assert was.order[..0] == [] && was.order[0..] == was.order;
  }

  // The bucket the walk is at, and the one after it, in the current live list.
  lemma WalkAt<B, T>(was: seq<B>, k: nat, all: map<B, seq<T>>, order: seq<B>) returns (p: nat)
    requires k < |was| && (forall b :: b in was ==> b in all) && WalkedOrder(was, k, all, order)
    ensures p < |order| && order[p] == was[k]
    ensures k + 1 < |was| <==> p + 1 < |order|
    ensures k + 1 < |was| ==> order[p + 1] == was[k + 1]
  {
    p := |NonEmpty(was[..k], all)|;
  }

  lemma WalkNow<B, T>(was: View<B, T>, k: nat, due: map<T, nat>, at: nat, order: seq<B>, queue: map<B, seq<T>>, ne: nat)
    returns (p: nat)
    requires Walk(was, k, due, at, order, queue, ne) && k < |was.order|
    ensures p < |order| && order[p] == was.order[k]
    ensures k + 1 < |was.order| <==> p + 1 < |order|
    ensures k + 1 < |was.order| ==> order[p + 1] == was.order[k + 1]
  {
    p := WalkAt(was.order, k, KeepAll(was.queue, due, at), order);
  }

  lemma StepOrder<B, T>(was: seq<B>, k: nat, all: map<B, seq<T>>, order: seq<B>)
    requires k < |was| && NoDup(was) && (forall b :: b in was ==> b in all) && WalkedOrder(was, k, all, order)
    ensures WalkedOrder(was, k + 1, all, if all[was[k]] == [] then Without(order, was[k]) else order)
  {
    var b := was[k];
    var front := was[..k];
    assert was[..k + 1] == front + [b];
    assert was[k..] == [b] + was[k + 1..];
    NonEmptyAppend(front, b, all);
    WithoutMiddle(NonEmpty(front, all), b, was[k + 1..]);
  }

  lemma StepQueues<B, T>(was: seq<B>, k: nat, queue: map<B, seq<T>>, all: map<B, seq<T>>, queue': map<B, seq<T>>)
    requires k < |was| && NoDup(was) && was[k] in queue && WalkedQueues(was, k, queue, all, queue')
    ensures was[k] in queue' && queue'[was[k]] == queue[was[k]]
    ensures WalkedQueues(was, k + 1, queue, all, queue'[was[k] := all[was[k]]])
  {
    assert was[..k + 1] == was[..k] + [was[k]];
  }

  lemma WalkStep<B, T>(was: View<B, T>, k: nat, due: map<T, nat>, at: nat, order: seq<B>, queue: map<B, seq<T>>,
                       ne: nat)
    requires Walk(was, k, due, at, order, queue, ne) && k < |was.order|
    ensures var b := was.order[k];
            && b in queue && (forall t :: t in queue[b] ==> t in due)
            && var q := Keep(queue[b], due, at);
            Walk(was, k + 1, due, at, if q == [] then Without(order, b) else order, queue[b := q],
                 if q != [] && due[q[0]] < ne then due[q[0]] else ne)
  {
    hide WalkedOrder, WalkedQueues, Keep, NonEmpty, Earliest, NoDup;
    var b := was.order[k];
    var all := KeepAll(was.queue, due, at);
    assert b in was.order;
    StepOrder(was.order, k, all, order);
    StepQueues(was.order, k, was.queue, all, queue);
    assert was.order[..k + 1] == was.order[..k] + [b];
    EarliestAppend(was.order[..k], b, all, due);
  }

  lemma {:induction false} WithoutMiddle<T>(s: seq<T>, x: T, t: seq<T>)
    requires x !in s
    ensures Without(s + ([x] + t), x) == s + t
  {
    if s == [] {
      assert s + ([x] + t) == [x] + t;
    } else {
      assert (s + ([x] + t))[1..] == s[1..] + ([x] + t);
      WithoutMiddle(s[1..], x, t);
      assert s + t == [s[0]] + (s[1..] + t);
    }
  }

  // The finished walk has collected.
  lemma WalkEnd<B, T>(was: View<B, T>, due: map<T, nat>, at: nat, order: seq<B>, queue: map<B, seq<T>>, ne: nat)
    requires Walk(was, |was.order|, due, at, order, queue, ne) && at >= was.next
    ensures View(order, queue, ne) == Collect(was, due, at)
  {
    assert was.order[..|was.order|] == was.order;
    var all := KeepAll(was.queue, due, at);
    forall b | b in was.queue
      ensures queue[b] == all[b]
    {
    }
    assert queue == all;
  }

  // ---- The deadlines that matter ----

  // Two deadline maps that agree on the queued timers give the same collection.
  ghost predicate Agree<B, T>(v: View<B, T>, due: map<T, nat>, due': map<T, nat>)
  {
    forall b :: b in v.queue ==> forall t :: t in v.queue[b] ==> t in due && t in due' && due[t] == due'[t]
  }

  lemma {:induction false} KeepAgree<T>(q: seq<T>, due: map<T, nat>, due': map<T, nat>, now: nat)
    requires forall t :: t in q ==> t in due && t in due' && due[t] == due'[t]
    ensures Keep(q, due, now) == Keep(q, due', now)
  {
    if q != [] {
      KeepAgree(q[1..], due, due', now);
    }
  }

  lemma {:induction false} EarliestAgree<B, T>(order: seq<B>, queue: map<B, seq<T>>, due: map<T, nat>,
                                               due': map<T, nat>)
    requires forall b :: b in order ==> b in queue
    requires forall b :: b in order ==> forall t :: t in queue[b] ==> t in due && t in due' && due[t] == due'[t]
    ensures Earliest(order, queue, due) == Earliest(order, queue, due')
  {
    if order != [] {
      EarliestAgree(order[1..], queue, due, due');
    }
  }

  lemma CollectAgree<B, T>(v: View<B, T>, due: map<T, nat>, due': map<T, nat>, now: nat)
    requires Known(v, due) && Agree(v, due, due')
    ensures Known(v, due') && Collect(v, due, now) == Collect(v, due', now)
  {
    if now >= v.next {
      var q := KeepAll(v.queue, due, now);
      forall b | b in v.queue
        ensures Keep(v.queue[b], due, now) == Keep(v.queue[b], due', now)
      {
        KeepAgree(v.queue[b], due, due', now);
      }
      assert q == KeepAll(v.queue, due', now);
      EarliestAgree(v.order, q, due, due');
    }
  }
}
