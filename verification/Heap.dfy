// src/benchmarks/c/impl/heap.c: a binary min-heap over deadlines with an id-indexed position array.
module Heap {
  import opened TimerBag
  import Words

  datatype Node = Node(expire: nat, id: nat)

  // The parent of heap index j.
  function Parent(j: nat): nat
    requires j > 0
  {
    (j - 1) / 2
  }

  // The entry at j is not due before its parent.
  predicate Edge(h: seq<Node>, j: nat)
    requires 0 < j < |h|
  {
    h[Parent(j)].expire <= h[j].expire
  }

  // Heap order.
  predicate Ordered(h: seq<Node>)
  {
    forall j :: 0 < j < |h| ==> Edge(h, j)
  }

  // pos is the inverse of the array: it knows exactly the ids in it and where each of them is.
  predicate Inverse(h: seq<Node>, pos: map<nat, nat>)
  {
    && (forall i :: 0 <= i < |h| ==> h[i].id in pos && pos[h[i].id] == i)
    && (forall id :: id in pos ==> pos[id] < |h| && h[pos[id]].id == id)
  }

  // The deadlines the heap stands for.
  function Deadlines(h: seq<Node>, pos: map<nat, nat>): map<nat, nat>
    requires Inverse(h, pos)
  {
    map id | id in pos :: h[pos[id]].expire
  }

  // The root is due first.
  lemma {:induction false} RootFirst(h: seq<Node>, j: nat)
    requires Ordered(h) && j < |h|
    ensures h[0].expire <= h[j].expire
  {
    if j > 0 {
      assert Edge(h, j);
      RootFirst(h, Parent(j));
    }
  }

  // Ordered but for the edge above i.
  predicate OrderedAbove(h: seq<Node>, i: nat)
  {
    && (forall j :: 0 < j < |h| && j != i ==> Edge(h, j))
    && (forall j :: 0 < j < |h| && Parent(j) == i && 0 < i ==> h[Parent(i)].expire <= h[j].expire)
  }

  // Ordered but for the edges below k and, while k is still i, the one above it.
  predicate OrderedBelow(h: seq<Node>, i: nat, k: nat)
  {
    && (forall j :: 0 < j < |h| && Parent(j) != k && (j != i || k != i) ==> Edge(h, j))
    && (forall j :: 0 < j < |h| && Parent(j) == k && 0 < k < |h| ==> h[Parent(k)].expire <= h[j].expire)
  }

  function Swap(h: seq<Node>, i: nat, j: nat): seq<Node>
    requires i < |h| && j < |h|
  {
    h[i := h[j]][j := h[i]]
  }

  function SwapPos(h: seq<Node>, pos: map<nat, nat>, i: nat, j: nat): map<nat, nat>
    requires i < |h| && j < |h|
  {
    pos[h[j].id := i][h[i].id := j]
  }

  lemma SwapKeeps(h: seq<Node>, pos: map<nat, nat>, i: nat, j: nat)
    requires i < |h| && j < |h| && i != j && Inverse(h, pos)
    ensures Inverse(Swap(h, i, j), SwapPos(h, pos, i, j))
    ensures Deadlines(Swap(h, i, j), SwapPos(h, pos, i, j)) == Deadlines(h, pos)
  {
  }

  lemma UpStep(h: seq<Node>, i: nat)
    requires 0 < i < |h| && OrderedAbove(h, i) && !Edge(h, i)
    ensures OrderedAbove(Swap(h, Parent(i), i), Parent(i))
  {
    var p := Parent(i);
    var g := Swap(h, p, i);
    forall j | 0 < j < |h| && j != p ensures Edge(g, j) {
      if j != i { assert Edge(h, j); }
    }
    forall j | 0 < j < |h| && Parent(j) == p && 0 < p ensures g[Parent(p)].expire <= g[j].expire {
      assert Edge(h, p);
      if j != i { assert Edge(h, j); }
    }
  }

  lemma DownStep(h: seq<Node>, i: nat, k: nat, m: nat)
    requires i <= k < |h| && OrderedBelow(h, i, k)
    requires 0 < m < |h| && Parent(m) == k && h[m].expire < h[k].expire
    requires forall j :: 0 < j < |h| && Parent(j) == k ==> h[m].expire <= h[j].expire
    ensures OrderedBelow(Swap(h, m, k), i, m)
  {
    var g := Swap(h, m, k);
    forall j | 0 < j < |h| && Parent(j) != m ensures Edge(g, j) {
      if j != k && Parent(j) != k { assert Edge(h, j); }
      if j == k && k != i { assert Edge(h, j); }
    }
    forall j | 0 < j < |h| && Parent(j) == m ensures g[Parent(m)].expire <= g[j].expire {
      assert Edge(h, j);
    }
  }

  // What the array without its last entry, that entry put in place of the one at i, stands for.
  function Replaced(h: seq<Node>, i: nat): seq<Node>
    requires i < |h|
  {
    if i == |h| - 1 then h[..|h| - 1] else h[..|h| - 1][i := h[|h| - 1]]
  }

  function ReplacedPos(h: seq<Node>, pos: map<nat, nat>, i: nat): map<nat, nat>
    requires i < |h|
  {
    if i == |h| - 1 then pos - {h[i].id} else (pos - {h[i].id})[h[|h| - 1].id := i]
  }

  lemma ReplacedKeeps(h: seq<Node>, pos: map<nat, nat>, i: nat)
    requires i < |h| && Inverse(h, pos)
    ensures Inverse(Replaced(h, i), ReplacedPos(h, pos, i))
    ensures Deadlines(Replaced(h, i), ReplacedPos(h, pos, i)) == Drop(Deadlines(h, pos), {h[i].id})
  {
  }

  // The entry moved to i can be wrong on either side, but what was below i still belongs below
  // what was above it.
  lemma ReplacedOrder(h: seq<Node>, i: nat)
    requires i < |h| - 1 && Ordered(h)
    ensures OrderedBelow(Replaced(h, i), i, i)
  {
    var g := Replaced(h, i);
    forall j | 0 < j < |g| && Parent(j) != i && j != i ensures Edge(g, j) { assert Edge(h, j); }
    forall j | 0 < j < |g| && Parent(j) == i && 0 < i ensures g[Parent(i)].expire <= g[j].expire {
      assert Edge(h, j) && Edge(h, i);
    }
  }

  lemma ReplacedLast(h: seq<Node>)
    requires h != [] && Ordered(h)
    ensures Ordered(Replaced(h, |h| - 1))
  {
    var g := Replaced(h, |h| - 1);
    forall j | 0 < j < |g| ensures Edge(g, j) { assert Edge(h, j); }
  }

  // When nothing below k is due before it, only the edge above i can be left wrong.
  lemma DownEnds(h: seq<Node>, i: nat, k: nat)
    requires i <= k < |h| && OrderedBelow(h, i, k)
    requires forall j :: 0 < j < |h| && Parent(j) == k ==> h[k].expire <= h[j].expire
    ensures OrderedAbove(h, i)
    ensures i == 0 ==> Ordered(h)
  {
    forall j | 0 < j < |h| && (j != i || k != i) ensures Edge(h, j) {}
    forall j | 0 < j < |h| && Parent(j) == i && 0 < i ensures h[Parent(i)].expire <= h[j].expire {
      if k != i { assert Edge(h, i) && Edge(h, j); }
    }
  }

  lemma AppendKeeps(h: seq<Node>, pos: map<nat, nat>, x: Node)
    requires Inverse(h, pos) && Ordered(h) && x.id !in pos
    ensures Inverse(h + [x], pos[x.id := |h|])
    ensures Deadlines(h + [x], pos[x.id := |h|]) == Deadlines(h, pos)[x.id := x.expire]
    ensures OrderedAbove(h + [x], |h|)
  {
    forall j | 0 < j < |h| ensures Edge(h + [x], j) { assert Edge(h, j); }
  }

  lemma {:induction false} PosSize(h: seq<Node>, pos: map<nat, nat>)
    requires Inverse(h, pos)
    ensures |pos| == |h| == |Deadlines(h, pos)|
    decreases |h|
  {
    assert Deadlines(h, pos).Keys == pos.Keys;
    if h == [] {
      assert pos == map[];
    } else {
      var i := |h| - 1;
      ReplacedKeeps(h, pos, i);
      PosSize(Replaced(h, i), ReplacedPos(h, pos, i));
      assert pos.Keys == ReplacedPos(h, pos, i).Keys + {h[i].id};
    }
  }

  class HeapStore {
    var heap: array<Node>
    var len: nat
    var pos: map<nat, nat>
    var now: nat

    ghost function Nodes(): seq<Node>
      requires len <= heap.Length
      reads `heap, `len, heap
    {
      heap[..len]
    }

    // The array is a heap but for its order, and pos is its inverse.
    ghost predicate Placed()
      reads `heap, `len, `pos, heap
    {
      len <= heap.Length && Inverse(Nodes(), pos)
    }

    ghost predicate Valid()
      reads `heap, `len, `pos, heap
    {
      Placed() && Ordered(Nodes())
    }

    ghost function View(): Bag
      requires Placed()
      reads this, heap
    {
      Bag(now, Deadlines(Nodes(), pos))
    }

    constructor ()
      ensures Valid() && fresh(heap) && View() == Bag(0, map[])
    {
      heap := new Node[0];
      len, pos, now := 0, map[], 0;
    }

    // Exchanging two entries with heap_set.
    method SwapNodes(i: nat, j: nat)
      requires Placed() && i < len && j < len && i != j
      modifies `pos, heap
      ensures Placed() && View() == old(View()) && Nodes() == Swap(old(Nodes()), i, j)
    {
      SwapKeeps(Nodes(), pos, i, j);
      ghost var h := Nodes();
      var tmp := heap[i];
      heap[i] := heap[j];
      pos := pos[heap[i].id := i];
      heap[j] := tmp;
      pos := pos[heap[j].id := j];
      assert Nodes() == Swap(h, i, j);
    }

    // sift_up
    method SiftUp(i: nat)
      requires Placed() && i < len && OrderedAbove(Nodes(), i)
      modifies `pos, heap
      ensures Valid() && View() == old(View())
    {
      var k: nat := i;
      while k > 0 && heap[Parent(k)].expire > heap[k].expire
        invariant k < len && Placed() && View() == old(View())
        invariant OrderedAbove(Nodes(), k)
      {
        UpStep(Nodes(), k);
        SwapNodes(Parent(k), k);
        k := Parent(k);
      }
      assert k > 0 ==> Edge(Nodes(), k);
    }

    // The child of k that is due first, if that is before k; otherwise k.
    method Least(k: nat) returns (m: nat)
      requires Placed() && k < len
      ensures k <= m < len
      ensures forall j :: 0 < j < len && Parent(j) == k ==> Nodes()[m].expire <= Nodes()[j].expire
      ensures m == k || (Parent(m) == k && Nodes()[m].expire < Nodes()[k].expire)
    {
      var l, r := 2 * k + 1, 2 * k + 2;
      m := k;
      if l < len && heap[l].expire < heap[m].expire { m := l; }
      if r < len && heap[r].expire < heap[m].expire { m := r; }
      assert forall j :: 0 < j && Parent(j) == k ==> j == l || j == r;
    }

    // sift_down: what is left to repair can only be above i.
    method SiftDown(i: nat)
      requires Placed() && i < len && OrderedBelow(Nodes(), i, i)
      modifies `pos, heap
      ensures Placed() && View() == old(View())
      ensures OrderedAbove(Nodes(), i)
      ensures i == 0 ==> Ordered(Nodes())
    {
      var k := i;
      while true
        invariant i <= k < len && Placed() && View() == old(View())
        invariant OrderedBelow(Nodes(), i, k)
        decreases len - k
      {
        var m := Least(k);
        if m == k {
          DownEnds(Nodes(), i, k);
          break;
        }
        DownStep(Nodes(), i, k, m);
        SwapNodes(m, k);
        k := m;
      }
    }

    // heap_start
    method Start(id: nat, ttl: nat)
      requires Valid() && id !in View().due && now + ttl < Words.TWO64
      modifies this, heap
      ensures Valid() && View() == TimerBag.Start(old(View()), id, ttl)
      ensures heap == old(heap) || fresh(heap)
    {
      assert id !in pos;
      hide Ordered, Inverse, OrderedAbove, Deadlines;
      if len == heap.Length {
        Enlarge();
      }
      Insert(Node(now + ttl, id));
    }

    method Insert(x: Node)
      requires Valid() && x.id !in pos && len < heap.Length
      modifies `len, `pos, heap
      ensures Valid() && View() == old(View().(due := View().due[x.id := x.expire]))
    {
      hide Ordered, Inverse, OrderedAbove, Deadlines;
      Append(x);
      SiftUp(len - 1);
    }

    method Append(x: Node)
      requires Valid() && x.id !in pos && len < heap.Length
      modifies `len, `pos, heap
      ensures Placed() && len == old(len) + 1 && OrderedAbove(Nodes(), len - 1)
      ensures View() == old(View().(due := View().due[x.id := x.expire]))
    {
      ghost var h := Nodes();
      AppendKeeps(h, pos, x);
      heap[len] := x;
      pos := pos[x.id := len];
      len := len + 1;
      assert Nodes() == h + [x];
    }

    // The realloc of heap_start.
    method Enlarge()
      requires Valid()
      modifies `heap
      ensures Valid() && Nodes() == old(Nodes()) && fresh(heap) && len < heap.Length
      ensures View() == old(View())
    {
      var bigger := new Node[if heap.Length > 0 then 2 * heap.Length else 1024](i => Node(0, 0));
      forall i | 0 <= i < len { bigger[i] := heap[i]; }
      ghost var h := Nodes();
      heap := bigger;
      assert Nodes() == h;
    }

    // Taking out the entry at i and putting the last one in its place.
    method TakeOut(i: nat)
      requires Placed() && i < len
      modifies `pos, `len, heap
      ensures Placed() && Nodes() == Replaced(old(Nodes()), i)
      ensures View() == TimerBag.Stop(old(View()), old(Nodes())[i].id)
    {
      ghost var h := Nodes();
      ReplacedKeeps(h, pos, i);
      var last := len - 1;
      pos := pos - {heap[i].id};
      len := last;
      if i != last {
        heap[i] := heap[last];
        pos := pos[heap[i].id := i];
      }
      assert Nodes() == Replaced(h, i);
    }

    // heap_stop
    method Stop(id: nat) returns (found: bool)
      requires Valid()
      modifies `pos, `len, heap
      ensures Valid() && View() == TimerBag.Stop(old(View()), id)
      ensures found <==> id in old(View()).due
    {
      found := id in pos;
      if found {
        var i := pos[id];
        ghost var h := Nodes();
        TakeOut(i);
        if i < len {
          ReplacedOrder(h, i);
          SiftDown(i);
          SiftUp(i);
        } else {
          ReplacedLast(h);
        }
      } else {
        assert Drop(View().due, {id}) == View().due;
      }
    }

    // The body of heap_tick's loop: the root is taken out.
    method Pop() returns (ghost id: nat)
      requires Valid() && len > 0
      modifies `pos, `len, heap
      ensures Valid() && View() == TimerBag.Stop(old(View()), id)
      ensures id in old(View()).due && old(View()).due[id] == old(heap[0]).expire
      ensures len == old(len) - 1
    {
      ghost var h := Nodes();
      id := heap[0].id;
      TakeOut(0);
      if len > 0 {
        ReplacedOrder(h, 0);
        SiftDown(0);
      } else {
        ReplacedLast(h);
      }
    }

    // heap_tick
    method Tick() returns (fired: nat)
      requires Valid()
      modifies this, heap
      ensures Valid() && View() == TimerBag.Tick(old(View()))
      ensures fired == |Fired(old(View()))|
      ensures heap == old(heap)
    {
      hide Ordered, Inverse, Deadlines;
      ghost var b := View();
      ghost var gone: set<nat> := {};
      now := now + 1;
      fired := 0;
      while len > 0 && heap[0].expire <= now
        invariant Valid() && heap == old(heap) && now == b.now + 1
        invariant gone <= Fired(b) && fired == |gone|
        invariant View().due == Drop(b.due, gone)
        decreases len
      {
        ghost var id := Pop();
        DropTwice(b.due, gone, id);
        gone := gone + {id};
        fired := fired + 1;
      }
      assert gone == Fired(b) by { AllDue(b, gone); }
    }

    lemma AllDue(b: Bag, gone: set<nat>)
      requires Valid() && View().due == Drop(b.due, gone) && gone <= Fired(b) && now == b.now + 1
      requires len > 0 ==> heap[0].expire > now
      ensures gone == Fired(b)
    {
      forall id | id in Fired(b) ensures id in gone {
        if id !in gone {
          assert id in View().due;
          RootFirst(Nodes(), pos[id]);
        }
      }
    }

    // heap_size
    method Size() returns (n: nat)
      requires Valid()
      ensures n == |View().due|
    {
      PosSize(Nodes(), pos);
      n := len;
    }

    // heap_advance, to a clock that no deadline has reached
    method Advance(target: nat)
      requires Valid() && now <= target
      modifies `now
      ensures Valid() && View() == old(View()).(now := target)
    {
      now := target;
    }
  }
}
