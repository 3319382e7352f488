// src/benchmarks/c/impl/lawn2.c: a lawn whose timers are known by id. The node of an id is made
// once and keeps its place, so a handle stays good while the id is started and stopped.
module LawnStore {
  import opened Words
  import opened TimerBag
  import opened Lawn2

  // More distinct TTLs than any table is grown for.
  const MANY: nat := 0x1000_0000_0000_0000

  // id >> BLK_BITS and id & BLK_MASK
  function BlockOf(id: nat): nat { id / 4096 }

  function PlaceOf(id: nat): (j: nat)
    ensures j < 4096
  {
    id % 4096
  }

  predicate FullBlocks(blocks: seq<seq<Timer>>) { forall i :: 0 <= i < |blocks| ==> |blocks[i]| == 4096 }

  lemma IdParts(id: nat, n: nat)
    ensures id == 4096 * BlockOf(id) + PlaceOf(id)
    ensures id < 4096 * n <==> BlockOf(id) < n
  {
  }

  // The nodes of the blocks, by id.
  ghost function NodesOf(blocks: seq<seq<Timer>>): (nodes: map<nat, Timer>)
    requires FullBlocks(blocks)
    ensures forall id :: id in nodes <==> 0 <= id < 4096 * |blocks|
  {
    map id: nat | id < 4096 * |blocks| :: (IdParts(id, |blocks|); blocks[BlockOf(id)][PlaceOf(id)])
  }

  lemma NodesGrow(blocks: seq<seq<Timer>>, b: seq<Timer>)
    requires FullBlocks(blocks) && |b| == 4096
    ensures FullBlocks(blocks + [b])
    ensures forall id :: id in NodesOf(blocks) ==>
              id in NodesOf(blocks + [b]) && NodesOf(blocks + [b])[id] == NodesOf(blocks)[id]
    ensures forall id :: id in NodesOf(blocks + [b]) && id !in NodesOf(blocks) ==>
              && NodesOf(blocks + [b])[id] == b[PlaceOf(id)] && id == 4096 * |blocks| + PlaceOf(id)
  {
    forall id: nat
      ensures id < 4096 * |blocks| <==> BlockOf(id) < |blocks|
      ensures id < 4096 * (|blocks| + 1) <==> BlockOf(id) < |blocks| + 1
      ensures id == 4096 * BlockOf(id) + PlaceOf(id)
    {
      IdParts(id, |blocks|);
      IdParts(id, |blocks| + 1);
    }
  }

  class Store {
    var lawn: Lawn
    var blocks: seq<seq<Timer>>      // node j of block i has id 4096 * i + j and never moves
    ghost var nodes: map<nat, Timer> // the nodes by id

    ghost predicate Blocks()
      reads this
    {
      FullBlocks(blocks) && nodes == NodesOf(blocks)
    }

    // The timers of the lawn are nodes of this store, and inStore tells which ones.
    ghost predicate Known()
      reads this, lawn`timers, nodes.Values
    {
      && (forall id :: id in nodes ==> nodes[id].id == id)
      && (forall t :: t in lawn.timers ==> t.id in nodes && nodes[t.id] == t)
      && (forall id :: id in nodes ==> (nodes[id].inStore <==> nodes[id] in lawn.timers))
    }

    ghost predicate Valid()
      reads this, lawn, lawn.tab, lawn.blades, lawn.timers, lawn.order, nodes.Values
    {
      lawn.Valid() && Known() && Blocks()
    }

    ghost function View(): Bag
      reads this, lawn, nodes.Values
    {
      Bag(lawn.now, map id | id in nodes && nodes[id] in lawn.timers :: nodes[id].expiration)
    }

    constructor ()
      ensures Valid() && fresh(lawn) && fresh(lawn.tab) && fresh(lawn.blades) && nodes == map[]
      ensures View() == Bag(0, map[]) && lawn.bucket == map[]
    {
      lawn := new Lawn();
      blocks, nodes := [], map[];
    }

    // What was there stays where it is, and what is there besides is new.
    twostate predicate Grown()
      reads this
    {
      && (forall id :: id in old(nodes) ==> id in nodes && nodes[id] == old(nodes[id]))
      && (forall id :: id in nodes && id !in old(nodes) ==> fresh(nodes[id]))
    }

    // A block of nodes, each with the id that its place gives it. The base has its low bits clear, so
    // that base | j is base + j.
    static method NewBlock(base: nat) returns (b: seq<Timer>)
      ensures |b| == 4096
      ensures forall j :: 0 <= j < 4096 ==> fresh(b[j]) && b[j].id == base + j && !b[j].inStore
    {
      b := [];
      while |b| < 4096
        invariant |b| <= 4096
        invariant forall j :: 0 <= j < |b| ==> fresh(b[j]) && b[j].id == base + j && !b[j].inStore
      {
        var n := new Timer(base + |b|);
        b := b + [n];
      }
    }

    method AddBlock()
      requires Valid()
      modifies `blocks, `nodes
      ensures Valid() && View() == old(View()) && |blocks| == old(|blocks|) + 1 && Grown()
    {
      hide Lawn.Valid, NodesOf;
      var b := NewBlock(4096 * |blocks|);
      ghost var was := blocks;
      blocks := blocks + [b];
      nodes := NodesOf(blocks);
      NodesGrow(was, b);
    }

    // timer_for
    method TimerFor(id: nat) returns (n: Timer)
      requires Valid()
      modifies `blocks, `nodes
      ensures Valid() && View() == old(View())
      ensures id in nodes && n == nodes[id] && Grown()
      ensures id in old(nodes) ==> nodes == old(nodes)
      ensures |blocks| == if BlockOf(id) < old(|blocks|) then old(|blocks|) else BlockOf(id) + 1
      ensures |blocks[BlockOf(id)]| == 4096 && n == blocks[BlockOf(id)][PlaceOf(id)]
    {
      hide Valid, View;
      BlocksHave(id);
      while |blocks| <= BlockOf(id)
        invariant Valid() && View() == old(View()) && Grown()
        invariant old(|blocks|) <= |blocks|
        invariant |blocks| > old(|blocks|) ==> old(|blocks|) <= BlockOf(id) && |blocks| <= BlockOf(id) + 1
        invariant |blocks| == old(|blocks|) ==> nodes == old(nodes)
      {
        AddBlock();
      }
      BlocksHave(id);
      n := blocks[BlockOf(id)][PlaceOf(id)];
    }

    lemma BlocksHave(id: nat)
      requires Valid()
      ensures id in nodes <==> BlockOf(id) < |blocks|
      ensures id in nodes ==> |blocks[BlockOf(id)]| == 4096 && blocks[BlockOf(id)][PlaceOf(id)] == nodes[id]
    {
      IdParts(id, |blocks|);
    }

    lemma ViewNow()
      ensures View().now == lawn.now
    {
    }

    lemma CountIs()
      requires Valid()
      ensures lawn.count == |lawn.bucket|
    {
      hide Lawn.Table, Lawn.Queues, Lawn.Live;
    }

    lemma LawnTimers()
      requires Valid()
      ensures lawn.timers <= nodes.Values
    {
      hide Lawn.Valid;
    }

    // l2_start
    method Start(id: nat, ttl: nat)
      requires Valid() && id !in View().due && lawn.now + ttl < TWO64 && lawn.count < MANY
      modifies this, lawn, lawn.blades, lawn.timers, nodes.Values
      ensures Valid() && View() == TimerBag.Start(old(View()), id, ttl)
      ensures lawn == old(lawn) && fresh(lawn.blades - old(lawn.blades)) && fresh(nodes.Values - old(nodes.Values))
      ensures lawn.bucket.Keys == old(lawn.bucket.Keys) + {ttl}
    {
      hide Valid, View;
      Unstarted(id);
      var n := TimerFor(id);
      Unstarted(id);
      AddNode(id, n, ttl);
    }

    lemma Unstarted(id: nat)
      requires id !in View().due
      ensures id in nodes ==> nodes[id] !in lawn.timers
    {
    }

    method AddNode(id: nat, n: Timer, ttl: nat)
      requires Valid() && id in nodes && n == nodes[id] && n !in lawn.timers
      requires lawn.now + ttl < TWO64 && lawn.count < MANY
      modifies lawn, lawn.blades, lawn.timers, n
      ensures Valid() && View() == TimerBag.Start(old(View()), id, ttl)
      ensures fresh(lawn.blades - old(lawn.blades))
      ensures lawn.bucket.Keys == old(lawn.bucket.Keys) + {ttl}
    {
      hide Lawn.Valid;
      FewBits(lawn);
      ghost var was := View().due;
      lawn.Add(n, ttl);
      AllInStore(lawn);
      assert View().due == was[id := lawn.now + ttl];
    }

    // l2_stop
    method Stop(id: nat) returns (found: bool)
      requires Valid()
      modifies this, lawn, lawn.blades, lawn.timers, nodes.Values
      ensures Valid() && View() == TimerBag.Stop(old(View()), id)
      ensures found <==> id in old(View()).due
      ensures lawn == old(lawn) && lawn.blades == old(lawn.blades) && fresh(nodes.Values - old(nodes.Values))
      ensures lawn.bucket == old(lawn.bucket)
    {
      hide Valid, View, Drop;
      var n := TimerFor(id);
      StartedIs(id);
      found := n.inStore;
      if found {
        DelNode(id, n);
      } else {
        DropNone(View().due, id);
      }
    }

    lemma StartedIs(id: nat)
      requires Valid() && id in nodes
      ensures nodes[id].inStore <==> id in View().due
    {
      hide Lawn.Valid;
    }

    method DelNode(id: nat, n: Timer)
      requires Valid() && id in nodes && n == nodes[id] && n.inStore
      modifies lawn, lawn.blades, lawn.timers, n
      ensures Valid() && View() == TimerBag.Stop(old(View()), id)
      ensures lawn.blades == old(lawn.blades) && lawn.bucket == old(lawn.bucket)
    {
      hide Lawn.Valid;
      ghost var was := View().due;
      lawn.Del(n);
      AllInStore(lawn);
      assert View().due == Drop(was, {id});
    }

    // l2_tick
    method Tick() returns (fired: nat)
      requires Valid() && lawn.now + 1 < TWO64
      modifies lawn, lawn.blades, lawn.timers
      ensures Valid() && View() == TimerBag.Tick(old(View()))
      ensures fired == |Fired(old(View()))|
      ensures lawn.blades == old(lawn.blades) && lawn.bucket == old(lawn.bucket)
    {
      hide Lawn.Valid, View, Drop, DueBy;
      ghost var was, all := View(), lawn.timers;
      ViewSize();
      Dues();
      var n, out, gone := lawn.Tick(false);
      fired := n;
      Collected(was, all, was.now + 1, fired);
    }

    // lawn2_advance on the adapter's store: a target that is not ahead is ignored, any other fires
    // whatever it passes.
    method Jump(target: nat) returns (fired: nat)
      requires Valid() && target < TWO64
      modifies lawn, lawn.blades, lawn.timers
      ensures Valid() && View() == if target <= old(View()).now then old(View()) else AdvanceTo(old(View()), target)
      ensures fired == if target <= old(View()).now then 0 else |DueBy(old(View()), target)|
      ensures lawn.blades == old(lawn.blades) && lawn.bucket == old(lawn.bucket)
    {
      hide Lawn.Valid, View, Drop, DueBy;
      ghost var was, all := View(), lawn.timers;
      ViewSize();
      Dues();
      var n, out, gone := lawn.Advance(target, false);
      fired := n;
      if was.now < target {
        Collected(was, all, target, fired);
      } else {
        Unchanged(was);
      }
    }

    // The deadlines of the view are those of the lawn's timers.
    lemma Dues()
      ensures View() == Bag(lawn.now, map id | id in nodes && nodes[id] in lawn.timers :: nodes[id].expiration)
    {
    }

    lemma Unchanged(was: Bag)
      requires lawn.Valid() && Were(was, lawn.timers) && Blocks() && was.now == lawn.now
      requires forall id :: id in nodes ==> (nodes[id].inStore ==> nodes[id] in lawn.timers)
      ensures Valid() && View() == was
    {
      AllInStore(lawn);
      hide Lawn.Valid;
    }

    // The view was this when the lawn held the timers of all.
    ghost predicate Were(was: Bag, all: set<Timer>)
      reads this, nodes.Values
    {
      && (forall id :: id in nodes ==> nodes[id].id == id)
      && (forall t :: t in all ==> t.id in nodes && nodes[t.id] == t)
      && was.due == map id | id in nodes && nodes[id] in all :: nodes[id].expiration
    }

    // A collection has taken exactly the timers out that are due.
    lemma Collected(was: Bag, all: set<Timer>, at: nat, fired: nat)
      requires lawn.Valid() && Were(was, all) && Blocks() && |was.due| == |all| && |lawn.timers| == |all| - fired
      requires lawn.now == at && lawn.timers <= all
      requires forall t :: t in all ==> (t in lawn.timers <==> t.expiration > at)
      requires forall id :: id in nodes ==> (nodes[id].inStore ==> nodes[id] in lawn.timers)
      ensures Valid() && View() == AdvanceTo(was, at) && fired == |DueBy(was, at)|
    {
      AllInStore(lawn);
      hide Lawn.Valid;
      Kept(was, all, at);
      hide Drop, DueBy;
      ViewSize();
      hide View;
      DueSize(was, at);
    }

    lemma Kept(was: Bag, all: set<Timer>, at: nat)
      requires Were(was, all)
      requires lawn.now == at && lawn.timers <= all
      requires forall t :: t in all ==> (t in lawn.timers <==> t.expiration > at)
      ensures View() == AdvanceTo(was, at)
    {
      assert View().due == Drop(was.due, DueBy(was, at));
    }

    lemma ViewSize()
      requires Valid()
      ensures |View().due| == |lawn.timers|
    {
      hide Lawn.Valid;
      var ids := View().due.Keys;
      ImageSize(ids, nodes);
      assert lawn.timers == set id | id in ids :: nodes[id];
      assert |View().due| == |ids|;
    }

    // l2_size
    method Size() returns (n: nat)
      requires Valid()
      ensures n == |View().due|
    {
      hide Lawn.Table, Lawn.Queues, Lawn.Live;
      ViewSize();
      n := lawn.live;
    }

    // l2_advance, to a clock that no deadline has reached
    method Advance(target: nat)
      requires Valid() && lawn.now <= target < TWO64
      modifies lawn`now
      ensures Valid() && View() == old(View()).(now := target)
    {
      hide Lawn.Valid;
      ghost var was := View().due;
      lawn.SetNow(target);
      assert View().due == was;
    }
  }

  lemma {:induction false} ImageSize(ids: set<nat>, nodes: map<nat, Timer>)
    requires ids <= nodes.Keys && forall id :: id in ids ==> nodes[id].id == id
    ensures |set id | id in ids :: nodes[id]| == |ids|
  {
    if ids != {} {
      var x :| x in ids;
      ImageSize(ids - {x}, nodes);
      var rest := set id | id in ids - {x} :: nodes[id];
      assert (set id | id in ids :: nodes[id]) == rest + {nodes[x]};
      assert nodes[x] !in rest;
    }
  }

  lemma AllInStore(l: Lawn)
    requires l.Valid()
    ensures forall t :: t in l.timers ==> t.inStore
  {
    hide Lawn.Table, Lawn.Live, Lawn.QueueAt;
    forall t | t in l.timers ensures t.inStore { assert l.TimerAt(t); }
  }

  // A table for fewer than MANY TTLs has a size of fewer than 63 bits.
  lemma FewBits(l: Lawn)
    requires l.Valid() && l.count < MANY
    ensures l.bits < 63
  {
    hide Lawn.Queues, Lawn.Live;
    if l.bits >= 63 { Pow2Mono(63, l.bits); Pow2Values(); }
  }
}
