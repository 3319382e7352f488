// The non-cascading timer wheel of linux_kern_timer.c, for LVL_DEPTH 9 and clocks that do not wrap.
//
// Level l has 64 buckets of 8^l clock ticks each. A bucket is emptied when the base clock reaches
// it; no timer ever moves between levels, so the bucket chosen on enqueue settles when it expires.
module KernelWheel {
  import opened Granules

  const DEPTH: nat := 9
  const SIZE: nat := 576
  // NEXT_TIMER_MAX_DELTA
  const MAX_DELTA: nat := 0x3FFF_FFFF

  // ---- The clock seen from a level ----

  // What __next_timer_interrupt makes of the clock: each level carries the part it cuts off.
  function Ceil(c: nat, l: nat): nat
  {
    if l == 0 then c else var u := Ceil(c, l - 1); u / 8 + (if u % 8 != 0 then 1 else 0)
  }

  // At clock c the expiry looks at bucket i of level l.
  predicate Visits(c: nat, l: nat, i: nat)
  {
    if l == 0 then c % 64 == i else c % 8 == 0 && Visits(c / 8, l - 1, i)
  }

  // The first clock, from c on, at which bucket i of level l is looked at.
  function NextVisit(c: nat, l: nat, i: nat): nat
    requires i < 64
  {
    Up(Ceil(c, l) + Ahead(Ceil(c, l), i), l)
  }

  // How many buckets after the one of m bucket i comes.
  function Ahead(m: nat, i: nat): nat
    requires i < 64
  {
    if m % 64 <= i then i - m % 64 else i + 64 - m % 64
  }

  lemma {:induction false} CeilFirst(c: nat, l: nat)
    requires l > 0
    ensures Ceil(c, l) == Ceil(c / 8 + (if c % 8 != 0 then 1 else 0), l - 1)
  {
    if l > 1 { CeilFirst(c, l - 1); }
  }

  // The multiples of a granule from c on are those whose factor is at least the carried clock.
  lemma {:induction false} CeilIs(c: nat, m: nat, l: nat)
    ensures c <= Up(m, l) <==> Ceil(c, l) <= m
  {
    if l > 0 {
      CeilFirst(c, l);
      CeilIs(c / 8 + (if c % 8 != 0 then 1 else 0), m, l - 1);
    }
  }

  // A level is looked at on the multiples of its granule.
  lemma {:induction false} VisitsUp(m: nat, l: nat, i: nat)
    ensures Visits(Up(m, l), l, i) <==> m % 64 == i
  {
    if l > 0 { VisitsUp(m, l - 1, i); }
  }

  lemma {:induction false} VisitsDown(c: nat, l: nat, i: nat)
    requires Visits(c, l, i)
    ensures c == Up(Down(c, l), l) && Down(c, l) % 64 == i
  {
    if l > 0 { VisitsDown(c / 8, l - 1, i); }
  }

  lemma AheadIs(m: nat, i: nat)
    requires i < 64
    ensures (m + Ahead(m, i)) % 64 == i
  {
  }

  lemma AheadLeast(m: nat, i: nat, n: nat)
    requires i < 64 && m <= n && n % 64 == i
    ensures m + Ahead(m, i) <= n
  {
  }

  // NextVisit is a visit, and there is none before it.
  lemma NextVisitIs(c: nat, l: nat, i: nat)
    requires i < 64
    ensures c <= NextVisit(c, l, i) && Visits(NextVisit(c, l, i), l, i)
    ensures forall d :: c <= d && Visits(d, l, i) ==> NextVisit(c, l, i) <= d
  {
    var m := Ceil(c, l) + Ahead(Ceil(c, l), i);
    CeilIs(c, m, l);
    VisitsUp(m, l, i);
    AheadIs(Ceil(c, l), i);
    assert NextVisit(c, l, i) == Up(m, l);
    hide Up, Down, Ceil, Visits, NextVisit, Ahead;
    forall d | c <= d && Visits(d, l, i) ensures NextVisit(c, l, i) <= d {
      VisitsDown(d, l, i);
      CeilIs(c, Down(d, l), l);
      AheadLeast(Ceil(c, l), i, Down(d, l));
      UpMono(m, Down(d, l), l);
    }
  }

  // A visit is the next one from c if there is none in between.
  lemma NextVisitUnique(c: nat, l: nat, i: nat, d: nat)
    requires i < 64 && c <= d && Visits(d, l, i)
    requires forall k :: c <= k < d ==> !Visits(k, l, i)
    ensures NextVisit(c, l, i) == d
  {
    NextVisitIs(c, l, i);
  }

  // ---- Choosing the bucket ----

  // LVL_START(n)
  function Start(n: nat): nat
    requires n > 0
  {
    63 * Gran(n - 1)
  }

  const CUTOFF: nat := 0x3F00_0000
  const TIMEOUT_MAX: nat := 0x3E00_0000

  // calc_index: its parameter is a 32-bit unsigned.
  function CalcIndex(expires: nat, l: nat): nat
  {
    64 * l + Down(expires % 0x1_0000_0000 + Gran(l), l) % 64
  }

  // calc_wheel_index, for an unsigned long delta: a clock beyond expires is a negative delta.
  function CalcWheelIndex(expires: nat, clk: nat): nat
  {
    var delta := expires - clk;
    if delta < 0 then clk % 64
    else if delta < Start(1) then CalcIndex(expires, 0)
    else if delta < Start(2) then CalcIndex(expires, 1)
    else if delta < Start(3) then CalcIndex(expires, 2)
    else if delta < Start(4) then CalcIndex(expires, 3)
    else if delta < Start(5) then CalcIndex(expires, 4)
    else if delta < Start(6) then CalcIndex(expires, 5)
    else if delta < Start(7) then CalcIndex(expires, 6)
    else if delta < Start(8) then CalcIndex(expires, 7)
    else CalcIndex(if expires >= CUTOFF then TIMEOUT_MAX else expires, 8)
  }

  lemma Constants()
    ensures CUTOFF == Start(DEPTH) && TIMEOUT_MAX == CUTOFF - Gran(DEPTH - 1)
    ensures Gran(0) == 1 && Gran(1) == 8 && Gran(2) == 64 && Gran(3) == 512 && Gran(4) == 4096
    ensures Gran(5) == 32768 && Gran(6) == 262144 && Gran(7) == 2097152 && Gran(8) == 16777216
  {
    assert Gran(1) == 8 && Gran(2) == 64 && Gran(3) == 512 && Gran(4) == 4096;
    assert Gran(5) == 8 * Gran(4) && Gran(6) == 8 * Gran(5) && Gran(7) == 8 * Gran(6) && Gran(8) == 8 * Gran(7);
  }

  // Cutting the expiry to 32 bits does not change the bucket.
  lemma DownLow(e: nat, l: nat)
    requires l < 9
    ensures Down(e % 0x1_0000_0000, l) % 64 == Down(e, l) % 64
  {
    hide Down;
    DownHigh(e / 0x1_0000_0000, e % 0x1_0000_0000, l);
  }

  lemma DownHigh(q: nat, r: nat, l: nat)
    requires l < 9
    ensures Down(0x1_0000_0000 * q + r, l) % 64 == Down(r, l) % 64
  {
    var m := Up(256 * q, 8 - l);
    UpEight(256 * q);
    UpUp(256 * q, 8 - l, l);
    UpRound(4 * q, 8 - l);
    DownUp(m, r, l);
    hide Up, Down;
    WholeTurns(m, Down(r, l));
  }

  lemma WholeTurns(m: nat, x: nat)
    requires m % 64 == 0
    ensures (m + x) % 64 == x % 64
  {
  }

  lemma CalcIndexIs(e: nat, l: nat)
    requires l < 9
    ensures CalcIndex(e, l) == 64 * l + (Down(e, l) + 1) % 64
  {
    var r := e % 0x1_0000_0000;
    DownLow(e, l);
    DownNext(r, l);
    SameRest(Down(r, l), Down(e, l));
    hide Down;
  }

  lemma SameRest(a: nat, b: nat)
    requires a % 64 == b % 64
    ensures (a + 1) % 64 == (b + 1) % 64
    ensures a < b ==> a + 64 <= b
  {
  }

  // ---- When a timer expires ----

  // The first multiple of the level's granule after e: (floor(e / G) + 1) * G.
  function Due(e: nat, l: nat): nat { Up(Down(e, l) + 1, l) }

  lemma {:induction false} DueBounds(e: nat, l: nat)
    ensures e < Due(e, l) <= e + Gran(l)
  {
    if l > 0 { DueBounds(e / 8, l - 1); }
  }

  // A timer whose delta the level can hold is looked at first at its due clock, and not before.
  lemma FirstVisitIsDue(e: nat, clk: nat, l: nat)
    requires l < 9 && clk <= e && e - clk < 63 * Gran(l)
    ensures NextVisit(clk, l, (Down(e, l) + 1) % 64) == Due(e, l)
  {
    hide Visits, NextVisit, Up, Down;
    var m := Down(e, l) + 1;
    DueBounds(e, l);
    VisitsUp(m, l, m % 64);
    NextVisitIs(clk, l, m % 64);
    var d := NextVisit(clk, l, m % 64);
    VisitsDown(d, l, m % 64);
    var n := Down(d, l);
    if d < Due(e, l) {
      UpMono(m, n, l);
      SameRest(n, m);
      UpMono(n + 64, m, l);
      UpSum(n, 64, l);
      UpSum(63, 1, l);
      UpTimes63(l);
      assert false;
    }
  }

  // The level whose range holds delta, for a delta below Start(9).
  function LevelOf(delta: nat): nat
  {
    if delta < 63 then 0 else if delta < 504 then 1 else if delta < 4032 then 2
    else if delta < 32256 then 3 else if delta < 258048 then 4 else if delta < 2064384 then 5
    else if delta < 16515072 then 6 else if delta < 132120576 then 7 else 8
  }

  // The clock at which a timer enqueued at clk is looked at first.
  function FirstLook(e: nat, clk: nat): nat
  {
    var idx := CalcWheelIndex(e, clk);
    NextVisit(clk, idx / 64, idx % 64)
  }

  lemma IndexIs(e: nat, clk: nat)
    requires clk <= e
    ensures var l := LevelOf(e - clk);
      && (l == 0 || 63 * Gran(l - 1) <= e - clk)
      && (l < 8 ==> e - clk < 63 * Gran(l))
      && (l < 8 ==> CalcWheelIndex(e, clk) == CalcIndex(e, l))
      && (l == 8 ==> CalcWheelIndex(e, clk) == CalcIndex(if e >= CUTOFF then TIMEOUT_MAX else e, 8))
  {
    Constants();
    hide CalcIndex, Gran;
  }

  lemma SplitIndex(l: nat, x: nat)
    requires x < 64
    ensures (64 * l + x) / 64 == l && (64 * l + x) % 64 == x
  {
  }

  // On levels 0 to 7 a timer is due strictly after it expires, late by at most a granule, and from
  // level 1 on by at most 8/63 of its delta. One whose expiry has passed is due at once.
  lemma Lateness(e: nat, clk: nat)
    requires e < clk + 132120576
    ensures e < clk ==> FirstLook(e, clk) == clk
    ensures clk <= e ==>
      var l := LevelOf(e - clk);
      && FirstLook(e, clk) == Due(e, l)
      && e < Due(e, l) <= e + Gran(l)
      && (l > 0 ==> 63 * (Due(e, l) - e) <= 8 * (e - clk))
  {
    if e < clk {
      NextVisitUnique(clk, 0, clk % 64, clk);
    } else {
      var l := LevelOf(e - clk);
      IndexIs(e, clk);
      CalcIndexIs(e, l);
      hide Visits, NextVisit, CalcIndex, CalcWheelIndex, Due, Down;
      SplitIndex(l, (Down(e, l) + 1) % 64);
      FirstVisitIsDue(e, clk, l);
      DueBounds(e, l);
      assert l > 0 ==> Gran(l) == 8 * Gran(l - 1);
    }
  }

  // The next expiry that falls into the bucket of e, for a base clock just past the bucket's.
  function NextSame(e: nat, l: nat): nat { Due(e, l) + 63 * Gran(l) }

  // When a timer of level l has been collected and the base clock moved on, an expiry 63 granules
  // after that gets the very bucket index the timer had.
  lemma SameIndexAgain(e: nat, l: nat)
    requires l < 8
    ensures CalcWheelIndex(NextSame(e, l), Due(e, l) + 1) == CalcIndex(e, l)
  {
    NextSameDown(e, l);
    IndexIs(NextSame(e, l), Due(e, l) + 1);
    LevelAt(l);
    CalcIndexIs(e, l);
    CalcIndexIs(NextSame(e, l), l);
    hide *;
    RestTurn(Down(e, l));
  }

  lemma NextSameDown(e: nat, l: nat)
    requires l < 9
    ensures NextSame(e, l) - (Due(e, l) + 1) == 63 * Gran(l) - 1 >= 0
    ensures Down(NextSame(e, l), l) == Down(e, l) + 64
  {
    var m := Down(e, l) + 1;
    DownUp(m + 63, 0, l);
    DownZero(l);
    UpSum(m, 63, l);
    UpTimes63(l);
    Constants();
  }

  lemma RestTurn(a: nat)
    ensures (a + 64 + 1) % 64 == (a + 1) % 64
  {
  }

  // A delta one short of a level's range is of that level.
  lemma LevelAt(l: nat)
    requires l < 8
    ensures 63 * Gran(l) > 0 && LevelOf(63 * Gran(l) - 1) == l
  {
    Constants();
  }

  // On the last level the expiry, not the delta, is compared with the cutoff. A timer the level
  // could hold is on time exactly if its expiry is below the cutoff or happens to fall into the
  // bucket of WHEEL_TIMEOUT_MAX.
  lemma LastLevel(e: nat, clk: nat)
    requires clk + 132120576 <= e < clk + CUTOFF
    ensures FirstLook(e, clk) == Due(e, 8) <==> e < CUTOFF || Down(e, 8) % 64 == 62
  {
    LastIndex(e, clk);
    Constants();
    hide CalcWheelIndex, Down, Gran, Up, Due, NextVisit;
    if e < CUTOFF {
      SplitIndex(8, (Down(e, 8) + 1) % 64);
      FirstVisitIsDue(e, clk, 8);
    } else {
      SplitIndex(8, 63);
      LastBucket(e, clk);
    }
  }

  lemma LastIndex(e: nat, clk: nat)
    requires clk + 132120576 <= e
    ensures CalcWheelIndex(e, clk) == if e < CUTOFF then 64 * 8 + (Down(e, 8) + 1) % 64 else 64 * 8 + 63
  {
    IndexIs(e, clk);
    CalcIndexIs(e, 8);
    CalcIndexIs(TIMEOUT_MAX, 8);
    MaxIs();
    hide CalcWheelIndex, CalcIndex, Down, Gran;
  }

  lemma LastBucket(e: nat, clk: nat)
    requires clk <= e < clk + 63 * Gran(8)
    ensures NextVisit(clk, 8, 63) == Due(e, 8) <==> Down(e, 8) % 64 == 62
  {
    VisitsUp(Down(e, 8) + 1, 8, 63);
    NextVisitIs(clk, 8, 63);
    FirstVisitIsDue(e, clk, 8);
    NextRest(Down(e, 8));
    hide Visits, NextVisit, Down, Gran, Up;
  }

  lemma NextRest(a: nat)
    ensures (a + 1) % 64 == 63 <==> a % 64 == 62
  {
  }

  lemma MaxIs()
    ensures Down(TIMEOUT_MAX, 8) == 62
  {
    assert Down(62, 0) == 62 && Down(496, 1) == 62 && Down(3968, 2) == 62 && Down(31744, 3) == 62;
    assert Down(253952, 4) == 62 && Down(2031616, 5) == 62 && Down(16252928, 6) == 62 && Down(130023424, 7) == 62;
  }

  // When it is not, it can expire at once: 132120576 ticks early at base clock CUTOFF.
  lemma LastLevelEarly()
    ensures FirstLook(CUTOFF + 132120576, CUTOFF) == CUTOFF
  {
    Constants();
    IndexIs(CUTOFF + 132120576, CUTOFF);
    CalcIndexIs(TIMEOUT_MAX, 8);
    MaxIs();
    SplitIndex(8, 63);
    UpEight(63);
    VisitsUp(63, 8, 63);
    hide Visits, NextVisit, CalcIndex, CalcWheelIndex, Down, Gran, Up;
    NextVisitUnique(CUTOFF, 8, 63, CUTOFF);
  }

  // ---- The wheel ----

  // A pending timer; since is the base clock at which its bucket was chosen.
  datatype Entry = Entry(id: nat, expires: nat, since: nat)

  // base->vectors: every bucket's list.
  type Vectors = vec: seq<seq<Entry>> | |vec| == 576 witness seq(576, i => [])

  datatype Wheel = Wheel(clk: nat, vec: Vectors)

  predicate Looks(c: nat, idx: nat) { Visits(c, idx / 64, idx % 64) }

  // __internal_add_timer
  function Added(w: Wheel, id: nat, expires: nat): Wheel
  {
    IndexInRange(expires, w.clk);
    var idx := CalcWheelIndex(expires, w.clk);
    w.(vec := w.vec[idx := [Entry(id, expires, w.clk)] + w.vec[idx]])
  }

  lemma IndexInRange(expires: nat, clk: nat)
    ensures CalcWheelIndex(expires, clk) < SIZE
  {
    hide Down, Gran;
  }

  // detach_timer of the k-th timer of a bucket
  function Removed(w: Wheel, idx: nat, k: nat): Wheel
    requires idx < SIZE && k < |w.vec[idx]|
  {
    w.(vec := w.vec[idx := w.vec[idx][..k] + w.vec[idx][k + 1..]])
  }

  // The expiry at the base clock empties the buckets it looks at.
  function Collected(w: Wheel): Wheel
  {
    w.(vec := seq(SIZE, idx requires 0 <= idx < SIZE => if Looks(w.clk, idx) then [] else w.vec[idx]))
  }

  // The lists it takes out, level by level.
  function Heads(w: Wheel): seq<seq<Entry>>
  {
    Gather(w.vec, w.clk, 0)
  }

  function Gather(vec: Vectors, c: nat, l: nat): seq<seq<Entry>>
    requires l <= DEPTH
    decreases DEPTH - l
  {
    if l == DEPTH then []
    else
      var list := vec[BucketOf(l, Slot(c))];
      (if list != [] then [list] else []) + (if c % 8 != 0 then [] else Gather(vec, c / 8, l + 1))
  }

  // (clk & LVL_MASK) + lvl * LVL_SIZE
  function BucketOf(l: nat, i: nat): (idx: nat)
    requires l < DEPTH && i < 64
    ensures idx < SIZE
  {
    i + l * 64
  }

  // clk >> LVL_CLK_SHIFT
  function NextLevel(c: nat): nat { c / 8 }

  // clk & LVL_CLK_MASK is 0
  predicate Whole(c: nat) { c % 8 == 0 }

  // Some bucket looked at in clock c holds a timer.
  predicate Finds(w: Wheel, c: nat)
  {
    exists idx :: 0 <= idx < SIZE && Looks(c, idx) && w.vec[idx] != []
  }

  lemma {:induction false} VisitsAligned(c: nat, l: nat, i: nat)
    ensures Visits(c, l, i) <==> Aligned(c, l) && Down(c, l) % 64 == i
  {
    if l > 0 { VisitsAligned(c / 8, l - 1, i); }
  }

  lemma GatherCase(vec: Vectors, c: nat, l: nat, list: seq<Entry>)
    requires l < DEPTH
    ensures list in Gather(vec, c, l) <==>
      (list != [] && vec[BucketOf(l, Slot(c))] == list) || (Whole(c) && list in Gather(vec, NextLevel(c), l + 1))
  {
  }

  lemma NoneBeyond(vec: Vectors, c: nat, l: nat, list: seq<Entry>)
    requires l <= DEPTH && list in Gather(vec, c, l)
    ensures l < DEPTH
  {
  }

  // The bucket of level l looked at after k shifts of the clock.
  predicate Sees(vec: Vectors, c: nat, l: nat, k: nat, list: seq<Entry>)
  {
    l + k < DEPTH && Aligned(c, k) && vec[BucketOf(l + k, Slot(Down(c, k)))] == list
  }

  lemma SeesNext(vec: Vectors, c: nat, l: nat, k: nat, list: seq<Entry>)
    ensures k > 0 ==> (Sees(vec, c, l, k, list) <==> Whole(c) && Sees(vec, NextLevel(c), l + 1, k - 1, list))
    ensures Sees(vec, c, l, 0, list) <==> l < DEPTH && vec[BucketOf(l, Slot(c))] == list
  {
    if k > 0 { assert l + 1 + (k - 1) == l + k; }
  }

  lemma {:induction false} GatherHas(vec: Vectors, c: nat, l: nat, k: nat, list: seq<Entry>)
    requires Sees(vec, c, l, k, list) && list != []
    ensures list in Gather(vec, c, l)
    decreases k
  {
    GatherCase(vec, c, l, list);
    SeesNext(vec, c, l, k, list);
    hide Gather, Slot, Sees, Whole, NextLevel, BucketOf;
    if k > 0 { GatherHas(vec, NextLevel(c), l + 1, k - 1, list); }
  }

  lemma {:induction false} GatherFrom(vec: Vectors, c: nat, l: nat, list: seq<Entry>) returns (k: nat)
    requires l <= DEPTH && list in Gather(vec, c, l)
    ensures Sees(vec, c, l, k, list) && list != []
    decreases DEPTH - l
  {
    hide Gather, Slot, Sees, Whole, NextLevel, BucketOf, Aligned, Down;
    NoneBeyond(vec, c, l, list);
    GatherCase(vec, c, l, list);
    if Whole(c) && list in Gather(vec, NextLevel(c), l + 1) {
      var j := GatherFrom(vec, NextLevel(c), l + 1, list);
      SeesNext(vec, c, l, j + 1, list);
      k := j + 1;
    } else {
      SeesNext(vec, c, l, 0, list);
      k := 0;
    }
  }

  // The lists taken out are exactly the non-empty buckets looked at.
  lemma HeadsAre(w: Wheel, list: seq<Entry>)
    ensures list in Heads(w) <==> list != [] && exists idx :: 0 <= idx < SIZE && Looks(w.clk, idx) && w.vec[idx] == list
  {
    hide Visits, Aligned, Down, Gather;
    if list in Heads(w) {
      var k := GatherFrom(w.vec, w.clk, 0, list);
      var i := Down(w.clk, k) % 64;
      VisitsAligned(w.clk, k, i);
      SplitIndex(k, i);
      assert Looks(w.clk, i + k * 64);
    }
    if idx :| 0 <= idx < SIZE && Looks(w.clk, idx) && w.vec[idx] == list && list != [] {
      VisitsAligned(w.clk, idx / 64, idx % 64);
      GatherHas(w.vec, w.clk, 0, idx / 64, list);
    }
  }

  // The expiry of w has emptied the buckets of the first l levels, c is the clock shifted for the
  // next one, and more tells whether it is time to look at that.
  ghost predicate Collecting(w: Wheel, v: Wheel, l: nat, c: nat, more: bool, heads: seq<seq<Entry>>)
    requires l <= DEPTH
  {
    && v.clk == w.clk
    && heads + (if more then Gather(w.vec, c, l) else []) == Heads(w)
    && (forall idx :: 0 <= idx < SIZE ==> v.vec[idx] == if idx < 64 * l && Looks(w.clk, idx) then [] else w.vec[idx])
    && Onward(w.clk, l, c, more)
  }

  // What the levels from l on make of the clock.
  ghost predicate Onward(clk: nat, l: nat, c: nat, more: bool)
  {
    forall k, x :: l <= k ==> (Visits(clk, k, x) <==> more && Visits(c, k - l, x))
  }

  lemma OnwardNext(clk: nat, l: nat, c: nat)
    requires Onward(clk, l, c, true)
    ensures Onward(clk, l + 1, c / 8, c % 8 == 0)
  {
    forall k, x | l + 1 <= k ensures Visits(clk, k, x) <==> c % 8 == 0 && Visits(c / 8, k - (l + 1), x) {
      assert Visits(clk, k, x) <==> Visits(c, k - l, x);
    }
  }

  lemma CollectingBegins(w: Wheel)
    ensures Collecting(w, w, 0, w.clk, true, [])
  {
  }

  lemma CollectLevel(w: Wheel, v: Wheel, l: nat, c: nat, heads: seq<seq<Entry>>)
    requires l < DEPTH && Collecting(w, v, l, c, true, heads)
    ensures var idx := BucketOf(l, Slot(c));
      Collecting(w, v.(vec := v.vec[idx := []]), l + 1, NextLevel(c), Whole(c),
        if v.vec[idx] != [] then heads + [v.vec[idx]] else heads)
  {
    OnwardNext(w.clk, l, c);
    assert forall x :: Visits(w.clk, l, x) <==> Visits(c, 0, x);
    LevelLooks(w.clk, l, c);
    hide Looks, Onward, Visits, Slot;
    HeadsLevel(w.vec, l, c, heads);
    hide Gather;
  }

  lemma HeadsLevel(vec: Vectors, l: nat, c: nat, heads: seq<seq<Entry>>)
    requires l < DEPTH
    ensures var list := vec[BucketOf(l, Slot(c))];
      (if list != [] then heads + [list] else heads) + (if c % 8 == 0 then Gather(vec, c / 8, l + 1) else [])
        == heads + Gather(vec, c, l)
  {
    var list := vec[BucketOf(l, Slot(c))];
    var a := if list != [] then [list] else [];
    var b := if c % 8 == 0 then Gather(vec, c / 8, l + 1) else [];
    assert Gather(vec, c, l) == a + b;
    hide *;
    assert heads + (a + b) == (heads + a) + b;
    assert (if list != [] then heads + [list] else heads) == heads + a;
  }

  lemma LevelLooks(clk: nat, l: nat, c: nat)
    requires l < DEPTH && forall x :: Visits(clk, l, x) <==> Visits(c, 0, x)
    ensures forall idx :: 64 * l <= idx < 64 * (l + 1) ==> (Looks(clk, idx) <==> idx == BucketOf(l, Slot(c)))
  {
    forall idx | 64 * l <= idx < 64 * (l + 1) ensures Looks(clk, idx) <==> idx == BucketOf(l, Slot(c)) {
      SplitIndex(l, idx - 64 * l);
    }
  }

  lemma CollectingEnds(w: Wheel, v: Wheel, l: nat, c: nat, more: bool, heads: seq<seq<Entry>>)
    requires l <= DEPTH && Collecting(w, v, l, c, more, heads) && (l == DEPTH || !more)
    ensures v == Collected(w) && heads == Heads(w)
  {
    forall idx | 0 <= idx < SIZE && 64 * l <= idx && l < DEPTH ensures !Looks(w.clk, idx) {
      assert l <= idx / 64;
    }
    hide Looks, Onward;
    assert v.vec == Collected(w).vec;
  }

  // ---- When the timers of a run expire ----

  // The bucket of a pending timer was chosen at a clock from which on it has not been looked at.
  predicate SettledEntry(x: Entry, idx: nat, clk: nat)
  {
    && x.since <= clk
    && idx == CalcWheelIndex(x.expires, x.since)
    && clk <= FirstLook(x.expires, x.since)
  }

  predicate Settled(w: Wheel)
  {
    forall idx, k :: 0 <= idx < SIZE && 0 <= k < |w.vec[idx]| ==> SettledEntry(w.vec[idx][k], idx, w.clk)
  }

  // What can happen to the wheel.
  datatype Op =
    | Add(id: nat, expires: nat)
    | Remove(idx: nat, k: nat)
    | Retime(idx: nat, k: nat, expires: nat) // __mod_timer when the bucket stays the same
    | Tick

  function Apply(w: Wheel, op: Op): Wheel
  {
    match op
    case Add(id, expires) => Added(w, id, expires)
    case Remove(idx, k) => if idx < SIZE && k < |w.vec[idx]| then Removed(w, idx, k) else w
    case Retime(idx, k, expires) =>
      if idx < SIZE && k < |w.vec[idx]| && CalcWheelIndex(expires, w.clk) == idx
      then w.(vec := w.vec[idx := w.vec[idx][k := Entry(w.vec[idx][k].id, expires, w.clk)]])
      else w
    case Tick => Collected(w).(clk := w.clk + 1)
  }

  function Run(w: Wheel, ops: seq<Op>): Wheel
  {
    if ops == [] then w else Apply(Run(w, ops[..|ops| - 1]), ops[|ops| - 1])
  }

  ghost predicate Empty(w: Wheel) { forall idx :: 0 <= idx < SIZE ==> w.vec[idx] == [] }

  // From any clock before the first look, the next look is the same.
  lemma StillNext(since: nat, clk: nat, l: nat, i: nat)
    requires i < 64 && since <= clk <= NextVisit(since, l, i)
    ensures NextVisit(clk, l, i) == NextVisit(since, l, i)
  {
    NextVisitIs(since, l, i);
    NextVisitIs(clk, l, i);
  }

  lemma NewEntry(id: nat, expires: nat, clk: nat)
    ensures SettledEntry(Entry(id, expires, clk), CalcWheelIndex(expires, clk), clk)
  {
    var idx := CalcWheelIndex(expires, clk);
    NextVisitIs(clk, idx / 64, idx % 64);
    hide CalcWheelIndex, NextVisit;
  }

  // A timer that is looked at is looked at for the first time.
  lemma LookedAt(x: Entry, idx: nat, clk: nat)
    requires SettledEntry(x, idx, clk) && Looks(clk, idx)
    ensures clk == FirstLook(x.expires, x.since)
  {
    NextVisitIs(x.since, idx / 64, idx % 64);
    hide CalcWheelIndex, NextVisit, Visits;
  }

  lemma ApplySettled(w: Wheel, op: Op)
    requires Settled(w)
    ensures Settled(Apply(w, op))
  {
    hide CalcWheelIndex, SettledEntry, Looks;
    match op
    case Add(id, expires) => NewEntry(id, expires, w.clk);
    case Remove(idx, k) =>
    case Retime(idx, k, expires) => if idx < SIZE && k < |w.vec[idx]| { NewEntry(w.vec[idx][k].id, expires, w.clk); }
    case Tick => TickSettled(w);
  }

  lemma TickSettled(w: Wheel)
    requires Settled(w)
    ensures Settled(Collected(w).(clk := w.clk + 1))
  {
    var v := Collected(w).(clk := w.clk + 1);
    hide CalcWheelIndex, FirstLook, SettledEntry, Looks;
    forall idx, k | 0 <= idx < SIZE && 0 <= k < |v.vec[idx]| ensures SettledEntry(v.vec[idx][k], idx, v.clk) {
      assert !Looks(w.clk, idx) && v.vec[idx] == w.vec[idx];
      NotYet(w.vec[idx][k], idx, w.clk);
    }
  }

  lemma NotYet(x: Entry, idx: nat, clk: nat)
    requires SettledEntry(x, idx, clk) && !Looks(clk, idx)
    ensures SettledEntry(x, idx, clk + 1)
  {
    NextVisitIs(x.since, idx / 64, idx % 64);
    hide CalcWheelIndex, NextVisit, Visits;
  }

  lemma {:induction false} RunSettled(w: Wheel, ops: seq<Op>)
    requires Settled(w)
    ensures Settled(Run(w, ops))
  {
    hide Settled, Apply;
    if ops != [] {
      RunSettled(w, ops[..|ops| - 1]);
      ApplySettled(Run(w, ops[..|ops| - 1]), ops[|ops| - 1]);
    }
  }

  // In every run from an empty wheel, each timer taken out is taken out at the clock its bucket was
  // first looked at after the bucket was chosen; Lateness says when that is.
  lemma FiresOnTime(w: Wheel, ops: seq<Op>, list: seq<Entry>, k: nat)
    requires Empty(w)
    requires list in Heads(Run(w, ops)) && k < |list|
    ensures list[k].since <= Run(w, ops).clk == FirstLook(list[k].expires, list[k].since)
    ensures list[k].since <= list[k].expires < list[k].since + 132120576 ==>
      list[k].expires < Run(w, ops).clk <= list[k].expires + Gran(LevelOf(list[k].expires - list[k].since))
  {
    var v := Run(w, ops);
    var x := list[k];
    RunSettled(w, ops);
    HeadsAre(v, list);
    hide Run, Heads, Looks, FirstLook, CalcWheelIndex, Due, LevelOf;
    var idx :| 0 <= idx < SIZE && Looks(v.clk, idx) && v.vec[idx] == list;
    LookedAt(x, idx, v.clk);
    if x.since <= x.expires < x.since + 132120576 { Lateness(x.expires, x.since); }
  }

  // Timers that share a bucket expire together.
  lemma SharedBucket(w: Wheel, idx: nat, j: nat, k: nat)
    requires Settled(w) && idx < SIZE && j < |w.vec[idx]| && k < |w.vec[idx]|
    ensures var x, y := w.vec[idx][j], w.vec[idx][k];
      FirstLook(x.expires, x.since) == FirstLook(y.expires, y.since) == NextVisit(w.clk, idx / 64, idx % 64)
  {
    var x, y := w.vec[idx][j], w.vec[idx][k];
    assert SettledEntry(x, idx, w.clk) && SettledEntry(y, idx, w.clk);
    hide CalcWheelIndex, NextVisit, Settled;
    StillNext(x.since, w.clk, idx / 64, idx % 64);
    StillNext(y.since, w.clk, idx / 64, idx % 64);
  }

  // ---- What becomes of the timers of a run ----

  // How often x is on the first n lists.
  function Tally(lists: seq<seq<Entry>>, n: nat, x: Entry): nat
    requires n <= |lists|
  {
    if n == 0 then 0 else Tally(lists, n - 1, x) + Times(lists[n - 1], x)
  }

  function Times(list: seq<Entry>, x: Entry): nat { multiset(list)[x] }

  function Count(lists: seq<seq<Entry>>, x: Entry): nat { Tally(lists, |lists|, x) }

  function One(yes: bool): nat { if yes then 1 else 0 }

  // v is w with x put in front of bucket idx, and nothing else changed.
  ghost predicate Links(w: Wheel, v: Wheel, idx: nat, x: Entry)
  {
    && idx < SIZE && v.clk == w.clk
    && v.vec[idx] == [x] + w.vec[idx]
    && (forall i :: 0 <= i < SIZE && i != idx ==> v.vec[i] == w.vec[i])
    && forall y :: Count(v.vec, y) == Count(w.vec, y) + One(y == x)
  }

  // v is w without the timer at place k of bucket idx: those before it and behind it keep their order,
  // the other buckets all they hold.
  ghost predicate Unlinks(w: Wheel, v: Wheel, idx: nat, k: nat)
  {
    && idx < SIZE && k < |w.vec[idx]| && v.clk == w.clk
    && |v.vec[idx]| == |w.vec[idx]| - 1
    && (forall j :: 0 <= j < k ==> v.vec[idx][j] == w.vec[idx][j])
    && (forall j :: k <= j < |v.vec[idx]| ==> v.vec[idx][j] == w.vec[idx][j + 1])
    && (forall i :: 0 <= i < SIZE && i != idx ==> v.vec[i] == w.vec[i])
    && forall y :: Count(w.vec, y) == Count(v.vec, y) + One(y == w.vec[idx][k])
  }

  lemma {:induction false} TallyPut(lists: seq<seq<Entry>>, idx: nat, list: seq<Entry>, n: nat, x: Entry)
    requires idx < |lists| && n <= |lists|
    ensures Tally(lists[idx := list], n, x) + (if idx < n then Times(lists[idx], x) else 0)
         == Tally(lists, n, x) + (if idx < n then Times(list, x) else 0)
  {
    hide Times;
    if n > 0 { TallyPut(lists, idx, list, n - 1, x); }
  }

  lemma CountPut(lists: seq<seq<Entry>>, idx: nat, list: seq<Entry>, x: Entry)
    requires idx < |lists|
    ensures Count(lists[idx := list], x) + Times(lists[idx], x) == Count(lists, x) + Times(list, x)
  {
    hide Times, Tally;
    TallyPut(lists, idx, list, |lists|, x);
  }

  lemma {:induction false} TallySame(a: seq<seq<Entry>>, b: seq<seq<Entry>>, n: nat, x: Entry)
    requires n <= |a| && n <= |b| && forall i :: 0 <= i < n ==> a[i] == b[i]
    ensures Tally(a, n, x) == Tally(b, n, x)
  {
    if n > 0 { TallySame(a, b, n - 1, x); }
  }

  lemma CountMore(heads: seq<seq<Entry>>, list: seq<Entry>, x: Entry)
    ensures Count(heads + [list], x) == Count(heads, x) + Times(list, x)
  {
    TallySame(heads + [list], heads, |heads|, x);
  }

  lemma {:induction false} TallyHas(lists: seq<seq<Entry>>, n: nat, x: Entry)
    requires n <= |lists|
    ensures Tally(lists, n, x) > 0 <==> exists i :: 0 <= i < n && x in lists[i]
  {
    if n > 0 {
      TallyHas(lists, n - 1, x);
      assert x in multiset(lists[n - 1]) <==> x in lists[n - 1];
    }
  }

  lemma TimesCut(list: seq<Entry>, k: nat, x: Entry)
    requires k < |list|
    ensures Times(list, x) == Times(list[..k] + list[k + 1..], x) + One(x == list[k])
  {
    assert list == list[..k] + [list[k]] + list[k + 1..];
  }

  lemma TimesFront(list: seq<Entry>, y: Entry, x: Entry)
    ensures Times([y] + list, x) == Times(list, x) + One(x == y)
  {
  }

  // Adding a timer puts it in front of the bucket its index names and leaves every other timer.
  lemma AddedLinks(w: Wheel, id: nat, expires: nat)
    ensures Links(w, Added(w, id, expires), CalcWheelIndex(expires, w.clk), Entry(id, expires, w.clk))
  {
    IndexInRange(expires, w.clk);
    var idx, x := CalcWheelIndex(expires, w.clk), Entry(id, expires, w.clk);
    hide CalcWheelIndex, Count, Times;
    forall y ensures Count(Added(w, id, expires).vec, y) == Count(w.vec, y) + One(y == x) {
      CountPut(w.vec, idx, [x] + w.vec[idx], y);
      TimesFront(w.vec[idx], x, y);
    }
  }

  // Removing a timer takes just that one.
  lemma RemovedUnlinks(w: Wheel, idx: nat, k: nat)
    requires idx < SIZE && k < |w.vec[idx]|
    ensures Unlinks(w, Removed(w, idx, k), idx, k)
  {
    var list := w.vec[idx];
    hide Count, Times;
    forall y ensures Count(w.vec, y) == Count(Removed(w, idx, k).vec, y) + One(y == list[k]) {
      CountPut(w.vec, idx, list[..k] + list[k + 1..], y);
      TimesCut(list, k, y);
    }
  }

  // The lists taken out hold, each once, the timers of the buckets looked at; the others stay where
  // they are.
  lemma CollectedSplits(w: Wheel)
    ensures forall x :: Count(w.vec, x) == Count(Collected(w).vec, x) + Count(Heads(w), x)
    ensures forall idx :: 0 <= idx < SIZE ==> Collected(w).vec[idx] == if Looks(w.clk, idx) then [] else w.vec[idx]
  {
    CollectingBegins(w);
    hide Looks;
    assert forall idx :: 0 <= idx < SIZE ==> Collected(w).vec[idx] == if Looks(w.clk, idx) then [] else w.vec[idx];
    hide Collecting, Collected, Heads, Count;
    forall x ensures Count(w.vec, x) == Count(Collected(w).vec, x) + Count(Heads(w), x) {
      NoTimes(x);
      CollectingSplits(w, w, 0, w.clk, [], x);
    }
  }

  lemma {:induction false} CollectingSplits(w: Wheel, v: Wheel, l: nat, c: nat, heads: seq<seq<Entry>>, x: Entry)
    requires l <= DEPTH && Collecting(w, v, l, c, true, heads)
    requires Count(w.vec, x) == Count(v.vec, x) + Count(heads, x)
    ensures Count(w.vec, x) == Count(Collected(w).vec, x) + Count(Heads(w), x)
    decreases DEPTH - l
  {
    hide Collecting, Heads, Collected, Slot, Whole, NextLevel, BucketOf, Count, Times;
    if l == DEPTH {
      CollectingEnds(w, v, l, c, true, heads);
    } else {
      var idx := BucketOf(l, Slot(c));
      var heads' := if v.vec[idx] != [] then heads + [v.vec[idx]] else heads;
      var v' := v.(vec := v.vec[idx := []]);
      CollectLevel(w, v, l, c, heads);
      CountPut(v.vec, idx, [], x);
      CountMore(heads, v.vec[idx], x);
      NoTimes(x);
      if Whole(c) {
        CollectingSplits(w, v', l + 1, NextLevel(c), heads', x);
      } else {
        CollectingEnds(w, v', l + 1, NextLevel(c), false, heads');
      }
    }
  }

  lemma NoTimes(x: Entry)
    ensures Times([], x) == 0 && Count([], x) == 0
  {
  }

  // The operation finds its timer, and a new expiry leaves it in its bucket.
  predicate Hits(w: Wheel, op: Op)
  {
    match op
    case Remove(idx, k) => idx < SIZE && k < |w.vec[idx]|
    case Retime(idx, k, expires) => idx < SIZE && k < |w.vec[idx]| && CalcWheelIndex(expires, w.clk) == idx
    case _ => true
  }

  // Whether an operation enqueues x, whether it takes x off, and how often it hands x to the
  // callbacks. A new expiry is a new entry.
  predicate Joins(w: Wheel, op: Op, x: Entry)
  {
    match op
    case Add(id, expires) => x == Entry(id, expires, w.clk)
    case Retime(idx, k, expires) => Hits(w, op) && x == Entry(w.vec[idx][k].id, expires, w.clk)
    case _ => false
  }

  predicate Leaves(w: Wheel, op: Op, x: Entry)
  {
    match op
    case Remove(idx, k) => Hits(w, op) && x == w.vec[idx][k]
    case Retime(idx, k, _) => Hits(w, op) && x == w.vec[idx][k]
    case _ => false
  }

  function Fires(w: Wheel, op: Op, x: Entry): nat { if op == Tick then Count(Heads(w), x) else 0 }

  // The same over a run.
  function Joined(w: Wheel, ops: seq<Op>, x: Entry): nat
  {
    if ops == [] then 0
    else var r := ops[..|ops| - 1]; Joined(w, r, x) + One(Joins(Run(w, r), ops[|ops| - 1], x))
  }

  function Left(w: Wheel, ops: seq<Op>, x: Entry): nat
  {
    if ops == [] then 0
    else var r := ops[..|ops| - 1]; Left(w, r, x) + One(Leaves(Run(w, r), ops[|ops| - 1], x))
  }

  function Fired(w: Wheel, ops: seq<Op>, x: Entry): nat
  {
    if ops == [] then 0
    else var r := ops[..|ops| - 1]; Fired(w, r, x) + Fires(Run(w, r), ops[|ops| - 1], x)
  }

  lemma ApplyConserves(w: Wheel, op: Op, x: Entry)
    ensures Count(w.vec, x) + One(Joins(w, op, x))
         == Count(Apply(w, op).vec, x) + One(Leaves(w, op, x)) + Fires(w, op, x)
  {
    hide CalcWheelIndex, Count, Heads, Collected, Added, Removed;
    match op
    case Add(id, expires) => AddedLinks(w, id, expires);
    case Remove(idx, k) => if Hits(w, op) { RemovedUnlinks(w, idx, k); }
    case Retime(idx, k, expires) => if Hits(w, op) { RetimedConserves(w, idx, k, expires, x); }
    case Tick => CollectedSplits(w);
  }

  lemma RetimedConserves(w: Wheel, idx: nat, k: nat, expires: nat, x: Entry)
    requires Hits(w, Retime(idx, k, expires))
    ensures var v := Apply(w, Retime(idx, k, expires)); var y := w.vec[idx][k];
      Count(w.vec, x) + One(x == Entry(y.id, expires, w.clk)) == Count(v.vec, x) + One(x == y)
  {
    hide CalcWheelIndex, Times, Count;
    var list, z := w.vec[idx], Entry(w.vec[idx][k].id, expires, w.clk);
    CountPut(w.vec, idx, list[k := z], x);
    TimesCut(list, k, x);
    TimesCut(list[k := z], k, x);
    assert list[k := z][..k] + list[k := z][k + 1..] == list[..k] + list[k + 1..];
  }

  // No timer is lost or made up: over any run, what was there and what joined is what is there still,
  // what was taken off, and what was handed to the callbacks.
  lemma {:induction false} RunConserves(w: Wheel, ops: seq<Op>, x: Entry)
    ensures Count(w.vec, x) + Joined(w, ops, x) == Count(Run(w, ops).vec, x) + Left(w, ops, x) + Fired(w, ops, x)
  {
    hide Apply, Joins, Leaves, Fires, Count;
    if ops != [] {
      var r := ops[..|ops| - 1];
      RunConserves(w, r, x);
      ApplyConserves(Run(w, r), ops[|ops| - 1], x);
    }
  }

  lemma PendingTime(w: Wheel, x: Entry)
    requires Settled(w) && Count(w.vec, x) > 0
    ensures w.clk <= FirstLook(x.expires, x.since)
    ensures CalcWheelIndex(x.expires, x.since) < SIZE && x in w.vec[CalcWheelIndex(x.expires, x.since)]
  {
    TallyHas(w.vec, SIZE, x);
    hide CalcWheelIndex, FirstLook;
    var idx :| 0 <= idx < SIZE && x in w.vec[idx];
    var k :| 0 <= k < |w.vec[idx]| && w.vec[idx][k] == x;
    assert SettledEntry(w.vec[idx][k], idx, w.clk);
  }

  lemma HeadsTime(w: Wheel, x: Entry)
    requires Settled(w) && Count(Heads(w), x) > 0
    ensures w.clk == FirstLook(x.expires, x.since)
  {
    var heads := Heads(w);
    TallyHas(heads, |heads|, x);
    var i :| 0 <= i < |heads| && x in heads[i];
    assert heads[i] in Heads(w);
    HeadsAre(w, heads[i]);
    hide CalcWheelIndex, FirstLook, Looks, Heads;
    var idx :| 0 <= idx < SIZE && Looks(w.clk, idx) && w.vec[idx] == heads[i];
    var k :| 0 <= k < |w.vec[idx]| && w.vec[idx][k] == x;
    assert SettledEntry(w.vec[idx][k], idx, w.clk);
    LookedAt(x, idx, w.clk);
  }

  lemma ApplyClock(w: Wheel, op: Op)
    ensures Apply(w, op).clk == w.clk + One(op == Tick)
  {
    hide CalcWheelIndex, Looks;
  }

  lemma {:induction false} RunClock(w: Wheel, ops: seq<Op>)
    ensures w.clk <= Run(w, ops).clk
  {
    hide Apply;
    if ops != [] {
      RunClock(w, ops[..|ops| - 1]);
      ApplyClock(Run(w, ops[..|ops| - 1]), ops[|ops| - 1]);
    }
  }

  // What was handed to the callbacks had its first look at a clock now past.
  lemma {:induction false} FiredTime(w: Wheel, ops: seq<Op>, x: Entry)
    requires Settled(w) && Fired(w, ops, x) > 0
    ensures w.clk <= FirstLook(x.expires, x.since) < Run(w, ops).clk
  {
    hide Apply, Heads, Count, FirstLook, Settled;
    var r := ops[..|ops| - 1];
    ApplyClock(Run(w, r), ops[|ops| - 1]);
    RunClock(w, r);
    if Fired(w, r, x) > 0 {
      FiredTime(w, r, x);
    } else {
      RunSettled(w, r);
      HeadsTime(Run(w, r), x);
    }
  }

  lemma EmptyCounts(w: Wheel, x: Entry)
    requires Empty(w)
    ensures Settled(w) && Count(w.vec, x) == 0
  {
    TallyHas(w.vec, SIZE, x);
  }

  // Each timer that joins and is not taken off is pending until its first look, and is handed to the
  // callbacks there, just as often as it joined.
  lemma ExactlyOnce(w: Wheel, ops: seq<Op>, x: Entry)
    requires Empty(w)
    ensures Left(w, ops, x) <= Joined(w, ops, x)
    ensures var v, n, at := Run(w, ops), Joined(w, ops, x) - Left(w, ops, x), FirstLook(x.expires, x.since);
      && (v.clk <= at ==> Count(v.vec, x) == n && Fired(w, ops, x) == 0)
      && (v.clk == at ==> Count(Heads(v), x) == n)
      && (v.clk > at ==> Count(v.vec, x) == 0 && Fired(w, ops, x) == n)
  {
    hide Run, Joined, Left, Fired, Heads, Count, FirstLook, Settled, Empty;
    var v := Run(w, ops);
    EmptyCounts(w, x);
    RunSettled(w, ops);
    RunConserves(w, ops, x);
    if Count(v.vec, x) > 0 { PendingTime(v, x); }
    if Fired(w, ops, x) > 0 { FiredTime(w, ops, x); }
    if v.clk == FirstLook(x.expires, x.since) { NextFires(v, x); }
  }

  lemma NextFires(v: Wheel, x: Entry)
    requires Settled(v) && v.clk == FirstLook(x.expires, x.since)
    ensures Count(Heads(v), x) == Count(v.vec, x)
  {
    hide Count, FirstLook, Settled, Heads, Collected;
    CollectedSplits(v);
    ApplySettled(v, Tick);
    if Count(Collected(v).vec, x) > 0 { PendingTime(Apply(v, Tick), x); }
  }

  lemma {:induction false} JoinedAt(w: Wheel, ops: seq<Op>, n: nat, x: Entry)
    requires n < |ops| && Joins(Run(w, ops[..n]), ops[n], x)
    ensures Joined(w, ops, x) > 0
  {
    var r := ops[..|ops| - 1];
    hide Joins, Run;
    if n < |r| {
      assert r[..n] == ops[..n];
      JoinedAt(w, r, n, x);
    }
  }

  lemma {:induction false} LeftNone(w: Wheel, ops: seq<Op>, x: Entry)
    requires forall m :: 0 <= m < |ops| ==> !Leaves(Run(w, ops[..m]), ops[m], x)
    ensures Left(w, ops, x) == 0
  {
    hide Leaves, Run;
    if ops != [] {
      var r := ops[..|ops| - 1];
      forall m | 0 <= m < |r| ensures !Leaves(Run(w, r[..m]), r[m], x) { assert r[..m] == ops[..m]; }
      LeftNone(w, r, x);
    }
  }

  // So a timer added at some step and never removed or given a new expiry is in its bucket until its
  // first look, on a list taken out then, and afterwards among those handed to the callbacks.
  lemma NeverLost(w: Wheel, ops: seq<Op>, n: nat, x: Entry)
    requires Empty(w) && n < |ops| && Joins(Run(w, ops[..n]), ops[n], x)
    requires forall m :: 0 <= m < |ops| ==> !Leaves(Run(w, ops[..m]), ops[m], x)
    ensures var v, idx, at := Run(w, ops), CalcWheelIndex(x.expires, x.since), FirstLook(x.expires, x.since);
      && (v.clk <= at ==> idx < SIZE && x in v.vec[idx])
      && (v.clk == at ==> exists i :: 0 <= i < |Heads(v)| && x in Heads(v)[i])
      && (v.clk > at ==> Fired(w, ops, x) > 0)
  {
    var v := Run(w, ops);
    JoinedAt(w, ops, n, x);
    LeftNone(w, ops, x);
    hide Run, Joined, Left, Fired, Leaves, Joins, Heads, FirstLook, CalcWheelIndex, Tally, Settled;
    ExactlyOnce(w, ops, x);
    EmptyCounts(w, x);
    RunSettled(w, ops);
    if v.clk <= FirstLook(x.expires, x.since) { PendingTime(v, x); }
    TallyHas(Heads(v), |Heads(v)|, x);
  }

  // ---- The next timer interrupt ----

  // Bucket i of level l holds a timer.
  predicate Bit(w: Wheel, l: nat, i: nat)
    requires l < DEPTH && i < 64
  {
    w.vec[BucketOf(l, i)] != []
  }

  // pos counts the buckets from slot c to the next pending one of level l, or is -1.
  predicate FirstPending(w: Wheel, l: nat, c: nat, pos: int)
    requires l < DEPTH && c < 64
  {
    && (pos == -1 ==> forall i :: 0 <= i < 64 ==> !Bit(w, l, i))
    && (pos != -1 ==>
          && 0 <= pos < 64
          && Bit(w, l, (c + pos) % 64)
          && forall i :: 0 <= i < 64 && Bit(w, l, i) ==> pos <= Ahead(c, i))
  }

  lemma FirstPendingAt(w: Wheel, l: nat, c: nat, f: nat)
    requires l < DEPTH && c < 64 && f < 64 && Bit(w, l, f)
    requires forall i :: 0 <= i < 64 && Bit(w, l, i) ==> Ahead(c, f) <= Ahead(c, i)
    ensures FirstPending(w, l, c, Ahead(c, f))
  {
    hide Bit;
    assert (c + Ahead(c, f)) % 64 == f;
  }

  lemma NonePending(w: Wheel, l: nat, c: nat)
    requires l < DEPTH && c < 64 && forall i :: 0 <= i < 64 ==> !Bit(w, l, i)
    ensures FirstPending(w, l, c, -1)
  {
  }

  // next is the first clock at which a pending bucket of the first l levels is looked at, but at
  // most MAX_DELTA away.
  ghost predicate NextOf(w: Wheel, l: nat, next: nat)
  {
    && w.clk <= next <= w.clk + MAX_DELTA
    && (next == w.clk + MAX_DELTA || exists idx :: 0 <= idx < SIZE && Looks(next, idx) && w.vec[idx] != [])
    && forall idx :: 0 <= idx < 64 * l && idx < SIZE && w.vec[idx] != [] ==>
              next <= NextVisit(w.clk, idx / 64, idx % 64)
  }

  lemma NextOfLevel(w: Wheel, l: nat, next: nat, pos: int)
    requires l < DEPTH && NextOf(w, l, next) && FirstPending(w, l, Ceil(w.clk, l) % 64, pos)
    ensures NextOf(w, l + 1, if pos >= 0 && Up(Ceil(w.clk, l) + pos, l) < next
              then Up(Ceil(w.clk, l) + pos, l) else next)
  {
    var m := Ceil(w.clk, l);
    var tmp := if pos >= 0 then Up(m + pos, l) else next;
    if pos >= 0 {
      VisitsUp(m + pos, l, (m + pos) % 64);
      CeilIs(w.clk, m + pos, l);
      SlotAfter(m, pos);
      SplitIndex(l, (m + pos) % 64);
      assert Looks(tmp, 64 * l + (m + pos) % 64);
    }
    hide Visits, Looks, Ceil, FirstPending, NextVisit;
    forall idx | 64 * l <= idx < 64 * (l + 1) && w.vec[idx] != []
      ensures pos >= 0 && tmp <= NextVisit(w.clk, idx / 64, idx % 64)
    {
      SplitIndex(l, idx - 64 * l);
      NoneEarlier(w, l, pos, idx - 64 * l);
    }
  }

  lemma SlotAfter(m: nat, pos: nat)
    ensures (m % 64 + pos) % 64 == (m + pos) % 64
  {
  }

  lemma NoneEarlier(w: Wheel, l: nat, pos: int, i: nat)
    requires l < DEPTH && FirstPending(w, l, Ceil(w.clk, l) % 64, pos) && i < 64 && Bit(w, l, i)
    ensures pos >= 0 && Up(Ceil(w.clk, l) + pos, l) <= NextVisit(w.clk, l, i)
  {
    var m := Ceil(w.clk, l);
    AheadSlot(m, i);
    UpMono(m + pos, m + Ahead(m, i), l);
  }

  lemma AheadSlot(m: nat, i: nat)
    requires i < 64
    ensures Ahead(m % 64, i) == Ahead(m, i)
  {
  }

  // The smallest over all levels is what the expiry would find first.
  lemma NextOfIsNext(w: Wheel, next: nat)
    requires NextOf(w, DEPTH, next)
    ensures IsNext(w, next)
  {
    hide Looks, NextVisit;
    forall c | w.clk <= c < next ensures !Finds(w, c) {
      if Finds(w, c) {
        var idx :| 0 <= idx < SIZE && Looks(c, idx) && w.vec[idx] != [];
        LooksLater(w.clk, c, idx);
      }
    }
  }

  lemma LooksLater(clk: nat, c: nat, idx: nat)
    requires clk <= c && Looks(c, idx)
    ensures NextVisit(clk, idx / 64, idx % 64) <= c
  {
    NextVisitIs(clk, idx / 64, idx % 64);
  }

  // next is what __next_timer_interrupt must return: the first clock at which the expiry finds
  // something, but at most MAX_DELTA away.
  ghost predicate IsNext(w: Wheel, next: nat)
  {
    && w.clk <= next <= w.clk + MAX_DELTA
    && (next == w.clk + MAX_DELTA || Finds(w, next))
    && forall c :: w.clk <= c < next ==> !Finds(w, c)
  }

  // ---- Skipping idle time ----

  // What one pass of the expiry loop took out, and when.
  datatype Event = Event(clk: nat, heads: seq<seq<Entry>>)

  // What the callbacks of the expired timers leave in the buckets; they do not move the clock.
  type Callbacks = (Wheel, seq<seq<Entry>>) -> Vectors

  // One pass without the NOHZ optimisation: collect, advance the clock, run the callbacks.
  function Pass(w: Wheel, h: Callbacks): Wheel
  {
    var next := Collected(w).(clk := w.clk + 1);
    if Heads(w) == [] then next else next.(vec := h(next, Heads(w)))
  }

  function PassEvents(w: Wheel): seq<Event>
  {
    if Heads(w) == [] then [] else [Event(w.clk, Heads(w))]
  }

  // The clock at which a pass with NOHZ collects, or None when it only moves the clock to now.
  function NohzClock(w: Wheel, now: nat, next: nat): nat
  {
    if now - w.clk > 2 then (if next > now then now else next) else w.clk
  }

  // One pass with the NOHZ optimisation.
  function NohzPass(w: Wheel, now: nat, next: nat, h: Callbacks): Wheel
  {
    if now - w.clk > 2 && next > now then w.(clk := now + 1) else Pass(w.(clk := NohzClock(w, now, next)), h)
  }

  function NohzEvents(w: Wheel, now: nat, next: nat): seq<Event>
  {
    if now - w.clk > 2 && next > now then [] else PassEvents(w.(clk := NohzClock(w, now, next)))
  }

  // n passes without NOHZ, and what they take out.
  ghost function Passes(w: Wheel, n: nat, h: Callbacks): (v: Wheel)
    ensures v.clk == w.clk + n
  {
    if n == 0 then w else Pass(Passes(w, n - 1, h), h)
  }

  ghost function PassesEvents(w: Wheel, n: nat, h: Callbacks): seq<Event>
  {
    if n == 0 then [] else PassesEvents(w, n - 1, h) + PassEvents(Passes(w, n - 1, h))
  }

  // Where nothing is found, nothing is taken out and nothing changes.
  lemma NothingFound(w: Wheel, c: nat)
    requires !Finds(w, c)
    ensures var v := w.(clk := c); Heads(v) == [] && Collected(v) == v
  {
    var v := w.(clk := c);
    if Heads(v) != [] {
      var list := Heads(v)[0];
      HeadsAre(v, list);
    }
    assert Collected(v).vec == v.vec;
  }

  lemma IdlePass(w: Wheel, c: nat, h: Callbacks)
    requires !Finds(w, c)
    ensures var v := w.(clk := c); Pass(v, h) == v.(clk := c + 1) && PassEvents(v) == []
  {
    NothingFound(w, c);
    hide Finds, Collected, Heads;
  }

  lemma {:induction false} IdlePasses(w: Wheel, n: nat, h: Callbacks)
    requires forall c :: w.clk <= c < w.clk + n ==> !Finds(w, c)
    ensures Passes(w, n, h) == w.(clk := w.clk + n)
  {
    hide Pass, Finds;
    if n > 0 {
      IdlePasses(w, n - 1, h);
      IdlePass(w, w.clk + n - 1, h);
    }
  }

  lemma {:induction false} IdleEvents(w: Wheel, n: nat, h: Callbacks)
    requires forall c :: w.clk <= c < w.clk + n ==> !Finds(w, c)
    ensures PassesEvents(w, n, h) == []
  {
    hide Passes, PassEvents, Finds, Pass;
    if n > 0 {
      IdleEvents(w, n - 1, h);
      IdlePasses(w, n - 1, h);
      IdlePass(w, w.clk + n - 1, h);
    }
  }

  lemma {:induction false} PassesAdd(w: Wheel, m: nat, n: nat, h: Callbacks)
    ensures Passes(w, m + n, h) == Passes(Passes(w, m, h), n, h)
  {
    hide Pass;
    if n > 0 { PassesAdd(w, m, n - 1, h); }
  }

  lemma {:induction false} EventsAdd(w: Wheel, m: nat, n: nat, h: Callbacks)
    ensures PassesEvents(w, m + n, h) == PassesEvents(w, m, h) + PassesEvents(Passes(w, m, h), n, h)
  {
    hide Passes, PassEvents;
    if n > 0 {
      EventsAdd(w, m, n - 1, h);
      PassesAdd(w, m, n - 1, h);
      assert PassesEvents(w, m + n, h) == PassesEvents(w, m + (n - 1), h) + PassEvents(Passes(w, m + (n - 1), h));
    }
  }

  // v comes about from w by passes without NOHZ that take out ev.
  ghost predicate Steps(w: Wheel, v: Wheel, ev: seq<Event>, h: Callbacks)
  {
    w.clk <= v.clk && v == Passes(w, v.clk - w.clk, h) && ev == PassesEvents(w, v.clk - w.clk, h)
  }

  lemma StepsAdd(w: Wheel, u: Wheel, v: Wheel, e: seq<Event>, f: seq<Event>, h: Callbacks)
    requires Steps(w, u, e, h) && Steps(u, v, f, h)
    ensures Steps(w, v, e + f, h)
  {
    hide Passes, PassesEvents;
    var m, n := u.clk - w.clk, v.clk - u.clk;
    PassesAdd(w, m, n, h);
    EventsAdd(w, m, n, h);
    assert m + n == v.clk - w.clk;
  }

  lemma StepsIdle(w: Wheel, c: nat, h: Callbacks)
    requires w.clk <= c && forall d :: w.clk <= d < c ==> !Finds(w, d)
    ensures Steps(w, w.(clk := c), [], h)
  {
    hide Passes, PassesEvents, Finds;
    IdlePasses(w, c - w.clk, h);
    IdleEvents(w, c - w.clk, h);
  }

  lemma StepsOne(w: Wheel, h: Callbacks)
    ensures Steps(w, Pass(w, h), PassEvents(w), h)
  {
    assert Passes(w, 0, h) == w && PassesEvents(w, 0, h) == [];
    assert Passes(w, 1, h) == Pass(w, h) && PassesEvents(w, 1, h) == [] + PassEvents(w);
    assert Pass(w, h).clk == w.clk + 1;
    hide *;
  }

  // A pass with NOHZ does what single passes up to the same clock do, all but the last idle.
  lemma NohzIsPasses(w: Wheel, now: nat, next: nat, h: Callbacks)
    requires w.clk <= now && (now - w.clk > 2 ==> IsNext(w, next))
    ensures w.clk < NohzPass(w, now, next, h).clk <= now + 1
    ensures Steps(w, NohzPass(w, now, next, h), NohzEvents(w, now, next), h)
  {
    var at := NohzClock(w, now, next);
    var u := w.(clk := at);
    hide PassEvents, Finds, Steps;
    if now - w.clk > 2 && next > now {
      StepsIdle(w, now + 1, h);
    } else {
      StepsIdle(w, at, h);
      StepsOne(u, h);
      StepsAdd(w, u, Pass(u, h), [], PassEvents(u), h);
      assert [] + PassEvents(u) == PassEvents(u);
    }
  }

  // What jiffies and __next_timer_interrupt give in the passes of __run_timers.
  datatype Readings = End | Reading(now: nat, next: nat, rest: Readings)

  // now is the last reading of jiffies before the pass, which the loop has found not to be before clk.
  ghost predicate Fit(w: Wheel, rs: Readings, h: Callbacks)
    decreases rs
  {
    rs.Reading? ==>
      w.clk <= rs.now && (rs.now - w.clk > 2 ==> IsNext(w, rs.next)) && Fit(NohzPass(w, rs.now, rs.next, h), rs.rest, h)
  }

  // __run_timers with NOHZ.
  ghost function NohzRun(w: Wheel, rs: Readings, h: Callbacks): Wheel
    decreases rs
  {
    if rs.End? then w else NohzRun(NohzPass(w, rs.now, rs.next, h), rs.rest, h)
  }

  ghost function NohzTrace(w: Wheel, rs: Readings, h: Callbacks): seq<Event>
    decreases rs
  {
    if rs.End? then []
    else NohzEvents(w, rs.now, rs.next) + NohzTrace(NohzPass(w, rs.now, rs.next, h), rs.rest, h)
  }

  // Whatever jiffies reads and whatever the callbacks do, a run with NOHZ takes out the same lists
  // at the same clocks, and leaves the same wheel, as going up to its last clock tick by tick.
  lemma {:induction false} NohzIsTickByTick(w: Wheel, rs: Readings, h: Callbacks)
    requires Fit(w, rs, h)
    ensures Steps(w, NohzRun(w, rs, h), NohzTrace(w, rs, h), h)
    decreases rs
  {
    hide NohzPass, NohzEvents, IsNext, Steps;
    if rs.End? {
      StepsIdle(w, w.clk, h);
    } else {
      var u := NohzPass(w, rs.now, rs.next, h);
      NohzIsTickByTick(u, rs.rest, h);
      NohzIsPasses(w, rs.now, rs.next, h);
      StepsAdd(w, u, NohzRun(u, rs.rest, h), NohzEvents(w, rs.now, rs.next), NohzTrace(u, rs.rest, h), h);
    }
  }

  // ---- Callbacks that add and remove timers ----

  // What the callbacks of a pass do, as operations on the wheel.
  type CallbackOps = (Wheel, seq<seq<Entry>>) -> seq<Op>

  // h does what f says, and no callback moves the clock.
  ghost predicate Performs(h: Callbacks, f: CallbackOps)
  {
    && (forall w, heads :: Tick !in f(w, heads))
    && (forall w, heads :: h(w, heads) == Run(w, f(w, heads)).vec)
  }

  function PassOps(w: Wheel, f: CallbackOps): seq<Op>
  {
    [Tick] + if Heads(w) == [] then [] else f(Apply(w, Tick), Heads(w))
  }

  ghost function PassesOps(w: Wheel, n: nat, h: Callbacks, f: CallbackOps): seq<Op>
  {
    if n == 0 then [] else PassesOps(w, n - 1, h, f) + PassOps(Passes(w, n - 1, h), f)
  }

  // How often x is on the lists of these events.
  function EventCount(ev: seq<Event>, x: Entry): nat
  {
    if ev == [] then 0 else EventCount(ev[..|ev| - 1], x) + Count(ev[|ev| - 1].heads, x)
  }

  lemma {:induction false} RunAdd(w: Wheel, a: seq<Op>, b: seq<Op>, x: Entry)
    ensures Run(w, a + b) == Run(Run(w, a), b)
    ensures Fired(w, a + b, x) == Fired(w, a, x) + Fired(Run(w, a), b, x)
  {
    hide Apply, Fires;
    if b == [] {
      assert a + b == a;
    } else {
      var r := b[..|b| - 1];
      assert (a + b)[..|a + b| - 1] == a + r;
      RunAdd(w, a, r, x);
    }
  }

  lemma {:induction false} NoTicks(w: Wheel, ops: seq<Op>, x: Entry)
    requires Tick !in ops
    ensures Run(w, ops).clk == w.clk && Fired(w, ops, x) == 0
  {
    hide Apply;
    if ops != [] {
      NoTicks(w, ops[..|ops| - 1], x);
      ApplyClock(Run(w, ops[..|ops| - 1]), ops[|ops| - 1]);
    }
  }

  lemma OneTick(w: Wheel, x: Entry)
    ensures Run(w, [Tick]) == Apply(w, Tick) && Fired(w, [Tick], x) == Count(Heads(w), x)
  {
    assert [Tick][..0] == [];
    assert Run(w, []) == w && Fired(w, [], x) == 0;
  }

  lemma OneEvent(ev: seq<Event>, e: Event, x: Entry)
    ensures EventCount(ev + [e], x) == EventCount(ev, x) + Count(e.heads, x)
  {
    assert (ev + [e])[..|ev|] == ev;
  }

  lemma PassIsRun(w: Wheel, h: Callbacks, f: CallbackOps, x: Entry)
    requires Performs(h, f)
    ensures Pass(w, h) == Run(w, PassOps(w, f)) && Fired(w, PassOps(w, f), x) == Count(Heads(w), x)
  {
    hide Run, Fired, Heads, Collected, Count;
    var next := Apply(w, Tick);
    OneTick(w, x);
    if Heads(w) == [] {
      assert [Tick] + [] == [Tick];
    } else {
      RunAdd(w, [Tick], f(next, Heads(w)), x);
      NoTicks(next, f(next, Heads(w)), x);
      assert h(next, Heads(w)) == Run(next, f(next, Heads(w))).vec;
    }
  }

  // Passes with such callbacks are a run, and their events hold what the run hands to the callbacks.
  lemma {:induction false} PassesAreRun(w: Wheel, n: nat, h: Callbacks, f: CallbackOps, x: Entry)
    requires Performs(h, f)
    ensures Passes(w, n, h) == Run(w, PassesOps(w, n, h, f))
    ensures EventCount(PassesEvents(w, n, h), x) == Fired(w, PassesOps(w, n, h, f), x)
  {
    hide Pass, PassOps, PassEvents, Run, Fired, Performs, EventCount;
    if n == 0 {
      NoFirings(w, x);
    } else {
      var u := Passes(w, n - 1, h);
      PassesAreRun(w, n - 1, h, f, x);
      PassIsRun(u, h, f, x);
      RunAdd(w, PassesOps(w, n - 1, h, f), PassOps(u, f), x);
      PassCount(PassesEvents(w, n - 1, h), u, x);
    }
  }

  lemma NoFirings(w: Wheel, x: Entry)
    ensures Run(w, []) == w && Fired(w, [], x) == 0 == EventCount([], x)
  {
  }

  lemma PassCount(ev: seq<Event>, u: Wheel, x: Entry)
    ensures EventCount(ev + PassEvents(u), x) == EventCount(ev, x) + Count(Heads(u), x)
  {
    hide Heads, Count, EventCount;
    if Heads(u) == [] {
      NoTimes(x);
      assert ev + [] == ev;
    } else {
      OneEvent(ev, Event(u.clk, Heads(u)), x);
    }
  }

  // So everything proved about runs holds of the loop with NOHZ. Whatever was done to the wheel before,
  // each timer whose first look the loop passes, and no other, comes up in its events, just as often as
  // it joined without being taken off; the others that joined are still pending.
  lemma NohzExactlyOnce(w0: Wheel, pre: seq<Op>, rs: Readings, h: Callbacks, f: CallbackOps, x: Entry)
    requires Empty(w0) && Fit(Run(w0, pre), rs, h) && Performs(h, f)
    ensures var w, v, at := Run(w0, pre), NohzRun(Run(w0, pre), rs, h), FirstLook(x.expires, x.since);
      w.clk <= v.clk && var ops := pre + PassesOps(w, v.clk - w.clk, h, f);
      var n := Joined(w0, ops, x) - Left(w0, ops, x);
      && v == Run(w0, ops) && n >= 0
      && EventCount(NohzTrace(w, rs, h), x) == (if w.clk <= at < v.clk then n else 0)
      && Count(v.vec, x) == (if v.clk <= at then n else 0)
  {
    hide Run, Fired, Joined, Left, Passes, PassesEvents, PassesOps, Fit, Performs, NohzRun, NohzTrace;
    hide FirstLook, Count, Empty, EventCount, Settled;
    var w := Run(w0, pre);
    NohzIsTickByTick(w, rs, h);
    var n := NohzRun(w, rs, h).clk - w.clk;
    var later := PassesOps(w, n, h, f);
    PassesAreRun(w, n, h, f, x);
    RunAdd(w0, pre, later, x);
    ExactlyOnce(w0, pre, x);
    ExactlyOnce(w0, pre + later, x);
    EmptyCounts(w0, x);
    RunSettled(w0, pre);
    if Fired(w, later, x) > 0 { FiredTime(w, later, x); }
  }
}
