// The promise that src/benchmarks/c/test.c checks on finite schedules: under every schedule, all
// exact stores behave alike, because each of them behaves like the bag of deadlines.
module Differential {
  import Words
  import opened TimerBag
  import Heap
  import NaiveRing
  import WheelExact
  import LawnStore
  import WheelStore
  import Slots
  import TickWheel
  import opened Lists

  datatype Cmd =
    | CmdStart(id: nat, ttl: nat)
    | CmdStop(id: nat)
    | CmdTick
    | CmdAdvance(target: nat) // the adapters' advance: the clock is set forward
    | CmdJump(target: nat)    // lawn2_advance: whatever the clock passes is fired

  // What the caller sees: the result of the call, and the size afterwards.
  datatype Obs = Obs(result: nat, size: nat)

  // What every store asks of its caller: a started id is not live, and no clock goes beyond 64 bits.
  // The clock is not set back; a jump may have any target.
  predicate Lawful(b: Bag, c: Cmd)
  {
    match c
    case CmdStart(id, ttl) => id !in b.due && b.now + ttl < Words.TWO64
    case CmdStop(id) => true
    case CmdTick => b.now + 1 < Words.TWO64
    case CmdAdvance(target) => b.now <= target < Words.TWO64
    case CmdJump(target) => target < Words.TWO64
  }

  // Nothing that only the lawn offers, and an advance stays below every deadline: what it passes, a
  // store may fire or not.
  predicate Calm(b: Bag, c: Cmd)
  {
    Lawful(b, c) && !c.CmdJump? && (c.CmdAdvance? ==> forall id :: id in b.due ==> c.target < b.due[id])
  }

  // Besides, a ttl is at least 1, as the stores ask that fire a slot without reading deadlines.
  predicate Prompt(b: Bag, c: Cmd) { Calm(b, c) && (c.CmdStart? ==> c.ttl >= 1) }

  // Besides, it is within reach of the exact wheel, which any ttl below 2^48 is. This is what all five
  // stores have in common.
  predicate Fair(b: Bag, c: Cmd)
  {
    Prompt(b, c) && (c.CmdStart? ==> WheelExact.InReach(b.now + c.ttl, b.now))
  }

  function After(b: Bag, c: Cmd): Bag
  {
    match c
    case CmdStart(id, ttl) => Start(b, id, ttl)
    case CmdStop(id) => Stop(b, id)
    case CmdTick => Tick(b)
    case CmdAdvance(target) => b.(now := target)
    case CmdJump(target) => if target <= b.now then b else AdvanceTo(b, target)
  }

  function See(b: Bag, c: Cmd): Obs
  {
    Obs(match c
        case CmdStart(_, _) => 0
        case CmdStop(id) => if id in b.due then 1 else 0
        case CmdTick => |Fired(b)|
        case CmdAdvance(_) => 0
        case CmdJump(target) => if target <= b.now then 0 else |DueBy(b, target)|,
      |After(b, c).due|)
  }

  // The bag after the first n commands.
  function BagAt(cmds: seq<Cmd>, n: nat): Bag
    requires n <= |cmds|
  {
    if n == 0 then Bag(0, map[]) else After(BagAt(cmds, n - 1), cmds[n - 1])
  }

  predicate LawfulRun(cmds: seq<Cmd>) { forall i :: 0 <= i < |cmds| ==> Lawful(BagAt(cmds, i), cmds[i]) }

  predicate CalmRun(cmds: seq<Cmd>) { forall i :: 0 <= i < |cmds| ==> Calm(BagAt(cmds, i), cmds[i]) }

  predicate PromptRun(cmds: seq<Cmd>) { forall i :: 0 <= i < |cmds| ==> Prompt(BagAt(cmds, i), cmds[i]) }

  predicate FairRun(cmds: seq<Cmd>) { forall i :: 0 <= i < |cmds| ==> Fair(BagAt(cmds, i), cmds[i]) }

  predicate NoJump(cmds: seq<Cmd>) { forall i :: 0 <= i < |cmds| ==> !cmds[i].CmdJump? }

  lemma FairIsPrompt(cmds: seq<Cmd>)
    requires FairRun(cmds)
    ensures PromptRun(cmds)
  {
    hide BagAt, Prompt;
  }

  lemma PromptIsLawful(cmds: seq<Cmd>)
    requires PromptRun(cmds)
    ensures CalmRun(cmds) && LawfulRun(cmds) && NoJump(cmds)
  {
    hide BagAt, Lawful;
    forall i | 0 <= i < |cmds|
      ensures Calm(BagAt(cmds, i), cmds[i]) && Lawful(BagAt(cmds, i), cmds[i]) && !cmds[i].CmdJump?
    {
      assert Prompt(BagAt(cmds, i), cmds[i]);
    }
  }

  // What the first n commands show.
  function Trace(cmds: seq<Cmd>, n: nat): seq<Obs>
    requires n <= |cmds|
  {
    if n == 0 then [] else Trace(cmds, n - 1) + [See(BagAt(cmds, n - 1), cmds[n - 1])]
  }

  lemma RunEmpty(cmds: seq<Cmd>)
    ensures BagAt(cmds, 0) == Bag(0, map[]) && Trace(cmds, 0) == []
  {
  }

  lemma RunNext(cmds: seq<Cmd>, i: nat)
    requires i < |cmds|
    ensures LawfulRun(cmds) ==> Lawful(BagAt(cmds, i), cmds[i])
    ensures CalmRun(cmds) ==> Calm(BagAt(cmds, i), cmds[i])
    ensures PromptRun(cmds) ==> Prompt(BagAt(cmds, i), cmds[i])
    ensures FairRun(cmds) ==> Fair(BagAt(cmds, i), cmds[i])
    ensures BagAt(cmds, i + 1) == After(BagAt(cmds, i), cmds[i])
    ensures Trace(cmds, i + 1) == Trace(cmds, i) + [See(BagAt(cmds, i), cmds[i])]
  {
  }

  // With ttls of at least 1 every deadline is still to come.
  lemma AfterAhead(b: Bag, c: Cmd)
    requires Ahead(b) && Prompt(b, c)
    ensures Ahead(After(b, c))
  {
  }

  lemma {:induction false} RunAhead(cmds: seq<Cmd>, n: nat)
    requires PromptRun(cmds) && n <= |cmds|
    ensures Ahead(BagAt(cmds, n))
  {
    hide Ahead, BagAt, After, Prompt, PromptRun;
    if n == 0 {
      RunEmpty(cmds);
      EmptyAhead();
    } else {
      RunAhead(cmds, n - 1);
      RunNext(cmds, n - 1);
      AfterAhead(BagAt(cmds, n - 1), cmds[n - 1]);
    }
  }

  lemma EmptyAhead()
    ensures Ahead(Bag(0, map[]))
  {
  }

  // So each timer fires on exactly the tick that reaches its deadline, in every store alike.
  lemma FiresOnDeadline(cmds: seq<Cmd>, n: nat, id: nat)
    requires PromptRun(cmds) && n < |cmds| && cmds[n] == CmdTick
    ensures var b := BagAt(cmds, n);
      id in Fired(b) <==> id in b.due && b.due[id] == BagAt(cmds, n + 1).now
  {
    RunAhead(cmds, n);
    FiredExactly(BagAt(cmds, n), id);
  }

  // An advance leaves what ticking up to its target leaves, and those ticks would fire nothing.
  lemma AdvanceMatchesTicks(cmds: seq<Cmd>, n: nat, k: nat)
    requires PromptRun(cmds) && n < |cmds| && cmds[n].CmdAdvance? && BagAt(cmds, n).now + k <= cmds[n].target
    ensures var b := BagAt(cmds, n);
      && AfterTicks(b, cmds[n].target - b.now) == BagAt(cmds, n + 1)
      && AfterTicks(b, k) == b.(now := b.now + k)
      && (b.now + k < cmds[n].target ==> Fired(AfterTicks(b, k)) == {})
  {
    hide BagAt, PromptRun, AfterTicks, Fired, Ahead;
    RunAhead(cmds, n);
    RunNext(cmds, n);
    assert Prompt(BagAt(cmds, n), cmds[n]);
    IdleAdvance(BagAt(cmds, n), cmds[n].target, k);
  }

  lemma IdleAdvance(b: Bag, target: nat, k: nat)
    requires Ahead(b) && b.now + k <= target && forall id :: id in b.due ==> target < b.due[id]
    ensures AfterTicks(b, target - b.now) == b.(now := target) && AfterTicks(b, k) == b.(now := b.now + k)
    ensures b.now + k < target ==> Fired(AfterTicks(b, k)) == {}
  {
    hide AfterTicks, AdvanceTo, Ahead;
    AdvanceIsTicks(b, target - b.now);
    AdvanceIdle(b, target);
    AdvanceIsTicks(b, k);
    AdvanceIdle(b, b.now + k);
    if b.now + k < target { NoneFired(b.(now := b.now + k)); }
  }

  lemma NoneFired(b: Bag)
    requires forall id :: id in b.due ==> b.now + 1 < b.due[id]
    ensures Fired(b) == {}
  {
  }

  // ---- The stores ----

  lemma DueAhead(b: Bag)
    requires Ahead(b)
    ensures forall id :: id in b.due ==> b.now < b.due[id]
  {
  }

  method HeapDo(s: Heap.HeapStore, c: Cmd) returns (o: Obs)
    requires s.Valid() && Lawful(s.View(), c) && !c.CmdJump?
    modifies s, s.heap
    ensures s.Valid() && s.View() == After(old(s.View()), c) && o == See(old(s.View()), c)
    ensures s.heap == old(s.heap) || fresh(s.heap)
  {
    hide Heap.HeapStore.Valid, Heap.Deadlines, Fired;
    var r: nat := 0;
    match c {
      case CmdStart(id, ttl) => s.Start(id, ttl);
      case CmdStop(id) => var found := s.Stop(id); r := if found then 1 else 0;
      case CmdTick => r := s.Tick();
      case CmdAdvance(target) => s.Advance(target);
    }
    var n := s.Size();
    o := Obs(r, n);
  }

  method HeapRun(cmds: seq<Cmd>) returns (s: Heap.HeapStore, seen: seq<Obs>)
    requires LawfulRun(cmds) && NoJump(cmds)
    ensures s.Valid() && s.View() == BagAt(cmds, |cmds|) && seen == Trace(cmds, |cmds|)
  {
    hide Heap.Ordered, Heap.Inverse, Heap.Deadlines, Lawful, After, See, BagAt, Trace, LawfulRun;
    RunEmpty(cmds);
    s := new Heap.HeapStore();
    seen := [];
    for i := 0 to |cmds|
      invariant fresh(s) && fresh(s.heap) && s.Valid() && s.View() == BagAt(cmds, i)
      invariant seen == Trace(cmds, i)
    {
      RunNext(cmds, i);
      var o := HeapDo(s, cmds[i]);
      seen := seen + [o];
    }
  }

  method RingDo(s: NaiveRing.Ring, c: Cmd) returns (o: Obs)
    requires s.Valid() && Prompt(s.View(), c) && Ahead(s.View())
    modifies s, s.slots
    ensures s.Valid() && s.View() == After(old(s.View()), c) && o == See(old(s.View()), c)
    ensures s.slots == old(s.slots) || fresh(s.slots)
  {
    hide NaiveRing.Ring.Valid, Slots.Deadlines, Fired, FiredLate, LateTick, Ahead;
    ghost var b := s.View();
    LateIsTick(b, s.slots.Length);
    DueAhead(b);
    var r: nat := 0;
    match c {
      case CmdStart(id, ttl) => s.Start(id, ttl);
      case CmdStop(id) => var found := s.Stop(id); r := if found then 1 else 0;
      case CmdTick => r := s.Tick();
      case CmdAdvance(target) => s.Advance(target);
    }
    var n := s.Size();
    o := Obs(r, n);
  }

  method RingRun(cmds: seq<Cmd>) returns (s: NaiveRing.Ring, seen: seq<Obs>)
    requires PromptRun(cmds)
    ensures s.Valid() && s.View() == BagAt(cmds, |cmds|) && seen == Trace(cmds, |cmds|)
  {
    hide NaiveRing.Ring.Valid, NaiveRing.Ring.View, Prompt, After, See, PromptRun;
    s := new NaiveRing.Ring();
    seen := [];
    for i := 0 to |cmds|
      invariant fresh(s) && fresh(s.slots) && s.Valid() && s.View() == BagAt(cmds, i)
      invariant seen == Trace(cmds, i)
    {
      RunAhead(cmds, i);
      RunNext(cmds, i);
      var o := RingDo(s, cmds[i]);
      seen := seen + [o];
    }
  }

  method ExactDo(s: WheelExact.ExactWheel, c: Cmd) returns (o: Obs)
    requires s.Valid() && Fair(s.View(), c) && Ahead(s.View())
    modifies s, s.slots
    ensures s.Valid() && s.View() == After(old(s.View()), c) && o == See(old(s.View()), c)
    ensures s.slots == old(s.slots)
    ensures s.starts == old(s.starts) + (if c.CmdStart? then 1 else 0)
  {
    hide WheelExact.ExactWheel.Valid, Slots.Deadlines, Fired, FiredLate, LateTick, LateTicks, AdvanceTo, Ahead;
    var r: nat := 0;
    ghost var b := s.View();
    LateIsTick(b, 64);
    DueAhead(b);
    match c {
      case CmdStart(id, ttl) => s.Start(id, ttl);
      case CmdStop(id) => var found := s.Stop(id); r := if found then 1 else 0;
      case CmdTick => r := s.Tick();
      case CmdAdvance(target) => LateIsAdvance(b, 64, target - s.now); s.Advance(target); AdvanceIdle(b, target);
    }
    var n := s.Size();
    o := Obs(r, n);
  }

  // The starts among the first n commands.
  function Starts(cmds: seq<Cmd>, n: nat): nat
    requires n <= |cmds|
  {
    if n == 0 then 0 else Starts(cmds, n - 1) + (if cmds[n - 1].CmdStart? then 1 else 0)
  }

  method ExactRun(cmds: seq<Cmd>) returns (s: WheelExact.ExactWheel, seen: seq<Obs>)
    requires FairRun(cmds)
    ensures s.Valid() && s.View() == BagAt(cmds, |cmds|) && seen == Trace(cmds, |cmds|)
    ensures s.starts == Starts(cmds, |cmds|) && s.moves <= 7 * s.starts
  {
    hide WheelExact.ExactWheel.Valid, WheelExact.ExactWheel.View, Fair, After, See, FairRun, PromptRun;
    FairIsPrompt(cmds);
    s := new WheelExact.ExactWheel();
    seen := [];
    for i := 0 to |cmds|
      invariant fresh(s) && fresh(s.slots) && s.Valid() && s.View() == BagAt(cmds, i)
      invariant seen == Trace(cmds, i) && s.starts == Starts(cmds, i)
    {
      RunAhead(cmds, i);
      RunNext(cmds, i);
      var o := ExactDo(s, cmds[i]);
      seen := seen + [o];
    }
    s.FewMoves();
  }

  method WheelDo(s: WheelStore.Store, c: Cmd) returns (o: Obs)
    requires s.Valid() && Calm(s.View(), c)
    modifies s, s.wheel, s.wheel.wheel, s.wheel.pending, s.wheel.members, s.timers.Values
    ensures s.Valid() && s.View() == After(old(s.View()), c) && o == See(old(s.View()), c)
    ensures fresh(s.timers.Values - old(s.timers.Values))
  {
    hide WheelStore.Store.Valid, WheelStore.Store.View, Fired;
    s.ViewNow();
    var r: nat := 0;
    ghost var b := s.View();
    match c {
      case CmdStart(id, ttl) => s.Start(id, ttl);
      case CmdStop(id) => var found := s.Stop(id); r := if found then 1 else 0;
      case CmdTick => r := s.Tick();
      case CmdAdvance(target) => s.Advance(target); AdvanceIdle(b, target);
    }
    var n := s.Size();
    o := Obs(r, n);
  }

  // The timers of the wheel are the ones in its table.
  lemma WheelMembers(s: WheelStore.Store)
    requires s.Valid()
    ensures s.wheel.members == s.timers.Values
  {
    hide TickWheel.Timeouts.Valid;
  }

  method WheelRun(cmds: seq<Cmd>) returns (s: WheelStore.Store, seen: seq<Obs>)
    requires CalmRun(cmds)
    ensures s.Valid() && s.View() == BagAt(cmds, |cmds|) && seen == Trace(cmds, |cmds|)
  {
    hide WheelStore.Store.Valid, WheelStore.Store.View, Calm, After, See, CalmRun;
    s := new WheelStore.Store();
    seen := [];
    for i := 0 to |cmds|
      invariant fresh(s) && fresh(s.wheel) && fresh(s.wheel.wheel) && fresh(s.wheel.pending) && fresh(s.timers.Values)
      invariant s.Valid() && s.View() == BagAt(cmds, i)
      invariant seen == Trace(cmds, i)
    {
      WheelMembers(s);
      RunNext(cmds, i);
      var o := WheelDo(s, cmds[i]);
      seen := seen + [o];
    }
  }

  method LawnDo(s: LawnStore.Store, c: Cmd) returns (o: Obs)
    requires s.Valid() && Lawful(s.View(), c) && |s.lawn.bucket| < LawnStore.MANY
    modifies s, s.lawn, s.lawn.blades, s.nodes.Values
    ensures s.Valid() && s.View() == After(old(s.View()), c) && o == See(old(s.View()), c)
    ensures s.lawn == old(s.lawn) && fresh(s.lawn.blades - old(s.lawn.blades))
    ensures fresh(s.nodes.Values - old(s.nodes.Values))
    ensures Grew(old(s.lawn.bucket), s.lawn.bucket, c)
  {
    hide LawnStore.Store.Valid, LawnStore.Store.View, Fired;
    s.ViewNow();
    s.LawnTimers();
    var r: nat := 0;
    match c {
      case CmdStart(id, ttl) =>
        s.CountIs();
        s.Start(id, ttl);
      case CmdStop(id) => var found := s.Stop(id); r := if found then 1 else 0;
      case CmdTick => r := s.Tick();
      case CmdAdvance(target) => s.Advance(target);
      case CmdJump(target) => r := s.Jump(target);
    }
    var n := s.Size();
    o := Obs(r, n);
  }

  // A command enters no TTL in the table but its own.
  ghost predicate Grew<B>(m: map<nat, B>, n: map<nat, B>, c: Cmd)
  {
    n.Keys <= m.Keys + (if c.CmdStart? then {c.ttl} else {})
  }

  lemma OneMore<B>(m: map<nat, B>, n: map<nat, B>, c: Cmd)
    requires Grew(m, n, c)
    ensures |n| <= |m| + 1
  {
    var ttl := if c.CmdStart? then c.ttl else 0;
    SubsetSize(n.Keys, m.Keys + {ttl});
    assert |n| == |n.Keys| && |m| == |m.Keys|;
  }

  predicate Short(cmds: seq<Cmd>) { |cmds| < LawnStore.MANY }

  // At most one distinct TTL a command.
  ghost predicate FewTtls(s: LawnStore.Store, n: nat)
    reads s, s.lawn
  {
    |s.lawn.bucket| <= n
  }

  // One turn of the loop below.
  method LawnStep(s: LawnStore.Store, cmds: seq<Cmd>, i: nat) returns (o: Obs)
    requires LawfulRun(cmds) && i < |cmds| && Short(cmds)
    requires s.Valid() && s.View() == BagAt(cmds, i) && FewTtls(s, i)
    modifies s, s.lawn, s.lawn.blades, s.nodes.Values
    ensures s.Valid() && s.View() == BagAt(cmds, i + 1) && FewTtls(s, i + 1)
    ensures Trace(cmds, i + 1) == Trace(cmds, i) + [o]
    ensures s.lawn == old(s.lawn) && fresh(s.lawn.blades - old(s.lawn.blades))
    ensures fresh(s.nodes.Values - old(s.nodes.Values))
  {
    hide LawnStore.Store.Valid, LawnStore.Store.View, Lawful, Fair, After, See, BagAt, Trace, LawfulRun, FairRun, Grew;
    RunNext(cmds, i);
    o := LawnDo(s, cmds[i]);
    OneMore(old(s.lawn.bucket), s.lawn.bucket, cmds[i]);
  }

  method NewLawn() returns (s: LawnStore.Store)
    ensures fresh(s) && fresh(s.lawn) && fresh(s.lawn.blades) && fresh(s.nodes.Values)
    ensures s.Valid() && s.View() == Bag(0, map[]) && FewTtls(s, 0)
  {
    s := new LawnStore.Store();
  }

  method LawnRun(cmds: seq<Cmd>) returns (s: LawnStore.Store, seen: seq<Obs>)
    requires LawfulRun(cmds) && Short(cmds)
    ensures s.Valid() && s.View() == BagAt(cmds, |cmds|) && seen == Trace(cmds, |cmds|)
  {
    hide LawnStore.Store.Valid, LawnStore.Store.View, BagAt, Trace, LawfulRun;
    RunEmpty(cmds);
    hide FewTtls, Short;
    var l := NewLawn();
    seen := [];
    for i := 0 to |cmds|
      invariant fresh(l) && fresh(l.lawn) && fresh(l.lawn.blades) && fresh(l.nodes.Values)
      invariant l.Valid() && l.View() == BagAt(cmds, i) && FewTtls(l, i)
      invariant seen == Trace(cmds, i)
    {
      var o := LawnStep(l, cmds, i);
      seen := seen + [o];
    }
    s := l;
  }

  // The gate itself: all five stores through the same schedule, compared call by call.
  method Agree(cmds: seq<Cmd>) returns (ok: bool)
    requires FairRun(cmds) && Short(cmds)
    ensures ok
  {
    FairIsPrompt(cmds);
    PromptIsLawful(cmds);
    var lawnStore, lawn := LawnRun(cmds);
    var wheelStore, wheel := WheelRun(cmds);
    var ringStore, ring := RingRun(cmds);
    var heapStore, heap := HeapRun(cmds);
    var exactStore, exact := ExactRun(cmds);
    ok := lawn == wheel && wheel == ring && ring == heap && heap == exact;
  }
}
