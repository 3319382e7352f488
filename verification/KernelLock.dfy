// The locking protocol of linux_kern_timer.c, as a state machine of interleaved atomic steps.
//
// Every read or write of shared memory that another CPU can see in between is a step of its own:
// lock_timer_base reads the flags, takes the lock, and compares the flags again in three steps;
// the migration in __mod_timer takes six; expire_timers clears running_timer without the lock.
module KernelLock {
  import KernelWheel

  datatype Timer = Timer(id: nat)

  datatype Option<T> = None | Some(value: T)

  // A softirq runs the expiry loop of its own CPU and never nests there; every other flow of
  // control, a callback that calls back into the timer code included, is a context.
  datatype Agent = Softirq(cpu: nat) | Context(id: nat)

  // per_cpu(timer_bases[BASE_STD or BASE_DEF], cpu)
  datatype BaseId = BaseId(cpu: nat, deferrable: bool)

  // The fields packed into timer->flags. TIMER_DEFERRABLE never changes.
  datatype Flags = Flags(cpu: nat, deferrable: bool, migrating: bool, idx: nat)

  // The list that holds the timer: a bucket, the local `heads` of a running expiry, or none.
  datatype Place = Nowhere | InBucket(base: BaseId, idx: nat) | OnHeads(base: BaseId)

  // mark is entry.pprev != NULL, what timer_pending() reads.
  datatype TimerState = TimerState(flags: Flags, place: Place, mark: bool)

  datatype Base = Base(lock: Option<Agent>, running: Option<Timer>, pending: set<nat>)

  // What a context was asked to do.
  datatype Op =
    | Mod(pendingOnly: bool, reduce: bool) // mod_timer, mod_timer_pending, timer_reduce, add_timer
    | Del                                  // del_timer
    | TryDel(sync: bool)                   // try_to_del_timer_sync, del_timer_sync

  // Where an agent stands.
  datatype Pc =
    | Idle
    | Begin(op: Op, t: Timer)
    // lock_timer_base; saw tells whether __mod_timer found the timer pending before locking
    | Spin(op: Op, t: Timer, saw: bool)
    | Read(op: Op, t: Timer, saw: bool, tf: Flags)
    | Check(op: Op, t: Timer, saw: bool, tf: Flags)
    | Locked(op: Op, t: Timer, saw: bool, b: BaseId)
    // __mod_timer from the detach to the enqueue
    | Detached(op: Op, t: Timer, b: BaseId, ret: int)
    | Moving(op: Op, t: Timer, b: BaseId, n: BaseId, ret: int)
    | Flagged(op: Op, t: Timer, b: BaseId, n: BaseId, ret: int)
    | Between(op: Op, t: Timer, n: BaseId, ret: int)
    | Arrived(op: Op, t: Timer, n: BaseId, ret: int)
    | Ready(op: Op, t: Timer, b: BaseId, ret: int)
    // about to unlock, and returned
    | Leave(op: Op, t: Timer, b: BaseId, ret: int)
    | Done(op: Op, t: Timer, ret: int)
    // __run_timers and expire_timers
    | Wait(b: BaseId)
    | Expire(b: BaseId)
    | Taken(b: BaseId, t: Timer)
    | Calling(b: BaseId, t: Timer)
    | Returned(b: BaseId, t: Timer)

  datatype State = State(base: BaseId -> Base, timer: Timer -> TimerState, pc: Agent -> Pc)

  // The choice an agent makes when it steps.
  datatype Act =
    | Call(op: Op, t: Timer)
    | RunTimers(b: BaseId)
    | Go
    | Keep                    // leave because the timer already expires early enough
    | Same(idx: nat)          // leave because the new bucket is the one in the flags
    | Target(cpu: nat)        // get_target_base
    | Bucket(idx: nat)        // calc_wheel_index
    | Collect(idxs: set<nat>) // __collect_expired_timers
    | Take(t: Timer)
    | Stop

  // get_timer_base
  function BaseOf(f: Flags): BaseId { BaseId(f.cpu, f.deferrable) }

  function Put<K(==,!new), V>(f: K -> V, k: K, v: V): (g: K -> V)
    ensures g(k) == v
    ensures forall j :: j != k ==> g(j) == f(j)
  {
    j => if j == k then v else f(j)
  }

  function At(s: State, a: Agent, p: Pc): (r: State) { s.(pc := Put(s.pc, a, p)) }

  function Lock(s: State, b: BaseId, holder: Option<Agent>): State
  {
    s.(base := Put(s.base, b, s.base(b).(lock := holder)))
  }

  function SetTimer(s: State, t: Timer, v: TimerState): State { s.(timer := Put(s.timer, t, v)) }

  function SetRunning(s: State, b: BaseId, r: Option<Timer>): State
  {
    s.(base := Put(s.base, b, s.base(b).(running := r)))
  }

  function SetPending(s: State, b: BaseId, p: set<nat>): State
  {
    s.(base := Put(s.base, b, s.base(b).(pending := p)))
  }

  // hlist_is_singular_node for the bucket the flags name
  ghost predicate Singular(s: State, t: Timer, b: BaseId)
  {
    var home := InBucket(b, s.timer(t).flags.idx);
    s.timer(t).place == home && forall u :: s.timer(u).place == home ==> u == t
  }

  // detach_if_pending
  ghost function Detach(s: State, t: Timer, b: BaseId, clear: bool): State
  {
    var x := s.timer(t);
    if !x.mark then s
    else
      var s1 := if Singular(s, t, b) then SetPending(s, b, s.base(b).pending - {x.flags.idx}) else s;
      SetTimer(s1, t, x.(place := Nowhere, mark := !clear))
  }

  // enqueue_timer
  function Enqueue(s: State, t: Timer, b: BaseId, i: nat): State
  {
    var x := s.timer(t);
    SetPending(SetTimer(s, t, TimerState(x.flags.(idx := i), InBucket(b, i), true)), b, s.base(b).pending + {i})
  }

  // The buckets in idxs, all moved to heads.
  function CollectAll(s: State, b: BaseId, idxs: set<nat>): State
  {
    var timer := s.timer;
    SetPending(s.(timer := t =>
      var x := timer(t);
      if x.place.InBucket? && x.place.base == b && x.place.idx in idxs then x.(place := OnHeads(b)) else x),
      b, s.base(b).pending - idxs)
  }

  ghost predicate HeadsEmpty(s: State, b: BaseId)
  {
    forall t :: s.timer(t).place != OnHeads(b)
  }

  // The steps of a context.
  ghost function ContextStep(s: State, a: Agent, act: Act): Option<State>
  {
    match (s.pc(a), act)
    case (Begin(op, t), Go) =>
      Some(At(s, a, match op
        case Mod(_, _) => Spin(op, t, s.timer(t).mark)
        case Del => if s.timer(t).mark then Spin(op, t, true) else Done(op, t, 0)
        case TryDel(_) => Spin(op, t, false)))
    case (Spin(op, t, saw), Go) =>
      var tf := s.timer(t).flags;
      Some(if tf.migrating then s else At(s, a, Read(op, t, saw, tf)))
    case (Read(op, t, saw, tf), Go) =>
      if s.base(BaseOf(tf)).lock == None
      then Some(At(Lock(s, BaseOf(tf), Some(a)), a, Check(op, t, saw, tf))) else None
    case (Check(op, t, saw, tf), Go) =>
      Some(if s.timer(t).flags == tf then At(s, a, Locked(op, t, saw, BaseOf(tf)))
           else At(Lock(s, BaseOf(tf), None), a, Spin(op, t, saw)))
    case (Locked(op, t, saw, b), _) => LockedStep(s, a, act, op, t, saw, b)
    case (Detached(op, t, b, ret), Target(cpu)) =>
      var n := BaseId(cpu, s.timer(t).flags.deferrable);
      Some(At(s, a, if n != b && s.base(b).running != Some(t) then Moving(op, t, b, n, ret) else Ready(op, t, b, ret)))
    case (Moving(op, t, b, n, ret), Go) =>
      var x := s.timer(t);
      Some(At(SetTimer(s, t, x.(flags := x.flags.(migrating := true))), a, Flagged(op, t, b, n, ret)))
    case (Flagged(op, t, b, n, ret), Go) => Some(At(Lock(s, b, None), a, Between(op, t, n, ret)))
    case (Between(op, t, n, ret), Go) =>
      if s.base(n).lock == None then Some(At(Lock(s, n, Some(a)), a, Arrived(op, t, n, ret))) else None
    case (Arrived(op, t, n, ret), Go) =>
      var x := s.timer(t);
      Some(At(SetTimer(s, t, x.(flags := x.flags.(cpu := n.cpu, migrating := false))), a, Ready(op, t, n, ret)))
    case (Ready(op, t, b, ret), Bucket(i)) => Some(At(Enqueue(s, t, b, i), a, Leave(op, t, b, ret)))
    case (Leave(op, t, b, ret), Go) =>
      Some(At(Lock(s, b, None), a, if op.TryDel? && op.sync && ret < 0 then Spin(op, t, false) else Done(op, t, ret)))
    case (Done(_, _, _), Go) => Some(At(s, a, Idle))
    case _ => None
  }

  // The first thing done with the lock held.
  ghost function LockedStep(s: State, a: Agent, act: Act, op: Op, t: Timer, saw: bool, b: BaseId): Option<State>
  {
    var mark := s.timer(t).mark;
    var ret := if mark then 1 else 0;
    match (op, act)
    case (Mod(_, reduce), Keep) => if saw && reduce && mark then Some(At(s, a, Leave(op, t, b, 1))) else None
    case (Mod(_, _), Same(i)) => if saw && s.timer(t).flags.idx == i then Some(At(s, a, Leave(op, t, b, 1))) else None
    case (Mod(pendingOnly, _), Go) =>
      Some(if !mark && pendingOnly then At(s, a, Leave(op, t, b, 0))
           else At(Detach(s, t, b, false), a, Detached(op, t, b, ret)))
    case (Del, Go) => Some(At(Detach(s, t, b, true), a, Leave(op, t, b, ret)))
    case (TryDel(_), Go) =>
      Some(if s.base(b).running == Some(t) then At(s, a, Leave(op, t, b, -1))
           else At(Detach(s, t, b, true), a, Leave(op, t, b, ret)))
    case _ => None
  }

  // The steps of the expiry loop.
  ghost function SoftirqStep(s: State, a: Agent, act: Act): Option<State>
  {
    match (s.pc(a), act)
    case (Wait(b), Go) =>
      if s.base(b).lock == None then Some(At(Lock(s, b, Some(a)), a, Expire(b))) else None
    case (Expire(b), Collect(idxs)) => if HeadsEmpty(s, b) then Some(CollectAll(s, b, idxs)) else None
    case (Expire(b), Take(t)) =>
      if s.timer(t).place == OnHeads(b)
      then
        Some(At(SetTimer(SetRunning(s, b, Some(t)), t, s.timer(t).(place := Nowhere, mark := false)),
                a, Taken(b, t)))
      else None
    case (Expire(b), Stop) => if HeadsEmpty(s, b) then Some(At(Lock(s, b, None), a, Idle)) else None
    case (Taken(b, t), Go) => Some(At(Lock(s, b, None), a, Calling(b, t)))
    case (Calling(b, t), Go) => Some(At(s, a, Returned(b, t)))
    case (Returned(b, t), Go) => Some(At(SetRunning(s, b, None), a, Wait(b)))
    case _ => None
  }

  // One step of agent a; None when it cannot make that step.
  ghost function Step(s: State, a: Agent, act: Act): Option<State>
  {
    if s.pc(a) == Idle then
      match (a, act)
      case (Context(_), Call(op, t)) => Some(At(s, a, Begin(op, t)))
      case (Softirq(cpu), RunTimers(b)) => if b.cpu == cpu then Some(At(s, a, Wait(b))) else None
      case _ => None
    else if a.Context? then ContextStep(s, a, act)
    else SoftirqStep(s, a, act)
  }

  // Nothing queued, nothing running, every lock free, no flag says migrating.
  ghost predicate Init(s: State)
  {
    && (forall b :: s.base(b) == Base(None, None, {}))
    && (forall t :: s.timer(t).place == Nowhere && !s.timer(t).mark && !s.timer(t).flags.migrating)
    && (forall a :: s.pc(a) == Idle)
  }

  // ---- What a program counter means ----

  // The base whose lock the agent holds.
  function Holds(p: Pc): Option<BaseId>
  {
    match p
    case Check(_, _, _, tf) => Some(BaseOf(tf))
    case Locked(_, _, _, b) => Some(b)
    case Detached(_, _, b, _) => Some(b)
    case Moving(_, _, b, _, _) => Some(b)
    case Flagged(_, _, b, _, _) => Some(b)
    case Arrived(_, _, n, _) => Some(n)
    case Ready(_, _, b, _) => Some(b)
    case Leave(_, _, b, _) => Some(b)
    case Expire(b) => Some(b)
    case Taken(b, _) => Some(b)
    case _ => None
  }

  // The timer whose TIMER_MIGRATING flag this agent has set.
  function Migrates(p: Pc): Option<Timer>
  {
    match p
    case Flagged(_, t, _, _, _) => Some(t)
    case Between(_, t, _, _) => Some(t)
    case Arrived(_, t, _, _) => Some(t)
    case _ => None
  }

  // The timer this agent has taken off its list and will put on one.
  function Carries(p: Pc): Option<Timer>
  {
    match p
    case Detached(_, t, _, _) => Some(t)
    case Moving(_, t, _, _, _) => Some(t)
    case Flagged(_, t, _, _, _) => Some(t)
    case Between(_, t, _, _) => Some(t)
    case Arrived(_, t, _, _) => Some(t)
    case Ready(_, t, _, _) => Some(t)
    case _ => None
  }

  // The base whose running_timer this agent has set.
  function Runs(p: Pc): Option<(BaseId, Timer)>
  {
    match p
    case Taken(b, t) => Some((b, t))
    case Calling(b, t) => Some((b, t))
    case Returned(b, t) => Some((b, t))
    case _ => None
  }

  // The base whose expiry loop this agent is in.
  function Expires(p: Pc): Option<BaseId>
  {
    match p
    case Wait(b) => Some(b)
    case Expire(b) => Some(b)
    case Taken(b, _) => Some(b)
    case Calling(b, _) => Some(b)
    case Returned(b, _) => Some(b)
    case _ => None
  }

  // The flags of t name base b.
  predicate Names(s: State, t: Timer, b: BaseId)
  {
    !s.timer(t).flags.migrating && BaseOf(s.timer(t).flags) == b
  }

  // ---- The invariant ----

  ghost predicate Locks(s: State)
  {
    && (forall a, b :: Holds(s.pc(a)) == Some(b) ==> s.base(b).lock == Some(a))
    && (forall b :: s.base(b).lock.Some? ==> Holds(s.pc(s.base(b).lock.value)) == Some(b))
  }

  // t is migrating to base n.
  predicate OnTheWay(s: State, t: Timer, n: BaseId)
  {
    s.timer(t).place == Nowhere && s.timer(t).flags.migrating && n.deferrable == s.timer(t).flags.deferrable
  }

  // What an agent knows where it stands.
  ghost predicate Knows(s: State, p: Pc)
  {
    match p
    case Read(_, _, _, tf) => !tf.migrating
    case Check(_, _, _, tf) => !tf.migrating
    case Locked(_, t, _, b) => Names(s, t, b)
    case Detached(op, t, b, _) => op.Mod? && Names(s, t, b) && s.timer(t).place == Nowhere
    case Moving(op, t, b, n, _) =>
      op.Mod? && Names(s, t, b) && s.timer(t).place == Nowhere && s.base(b).running != Some(t)
      && n != b && n.deferrable == b.deferrable
    case Flagged(op, t, _, n, _) => op.Mod? && OnTheWay(s, t, n)
    case Between(op, t, n, _) => op.Mod? && OnTheWay(s, t, n)
    case Arrived(op, t, n, _) => op.Mod? && OnTheWay(s, t, n)
    case Ready(op, t, b, _) => op.Mod? && Names(s, t, b) && s.timer(t).place == Nowhere
    case Done(op, _, ret) => op == TryDel(true) ==> ret >= 0
    case Wait(b) => s.base(b).running == None
    case Expire(b) => s.base(b).running == None
    case Taken(b, t) => s.base(b).running == Some(t)
    case Calling(b, t) => s.base(b).running == Some(t)
    case Returned(b, t) => s.base(b).running == Some(t)
    case _ => true
  }

  // Which agent may stand there.
  predicate Fits(a: Agent, p: Pc)
  {
    match Expires(p)
    case None => p == Idle || a.Context?
    case Some(b) => a == Softirq(b.cpu)
  }

  ghost predicate Agents(s: State)
  {
    forall a :: Fits(a, s.pc(a)) && Knows(s, s.pc(a))
  }

  // A listed timer has its mark set and its flags name the list; a bucket is flagged in the bitmap.
  ghost predicate ListedAt(s: State, t: Timer)
  {
    var x := s.timer(t);
    x.place != Nowhere ==>
      && x.mark
      && Names(s, t, x.place.base)
      && (x.place.InBucket? ==> x.flags.idx == x.place.idx && x.place.idx in s.base(x.place.base).pending)
      && (x.place.OnHeads? ==> Expires(s.pc(Softirq(x.place.base.cpu))) == Some(x.place.base))
  }

  ghost predicate Listed(s: State)
  {
    forall t :: ListedAt(s, t)
  }

  // A timer that is marked without being listed is being carried by a context.
  ghost predicate Carried(s: State)
  {
    forall t :: s.timer(t).mark && s.timer(t).place == Nowhere ==> exists a :: Carries(s.pc(a)) == Some(t)
  }

  // TIMER_MIGRATING was set by one context, which is still on its way.
  ghost predicate Migration(s: State)
  {
    && (forall t :: s.timer(t).flags.migrating ==> exists a :: Migrates(s.pc(a)) == Some(t))
    && (forall a, c :: Migrates(s.pc(a)).Some? && Migrates(s.pc(a)) == Migrates(s.pc(c)) ==> a == c)
  }

  // running_timer is what the softirq of the base's CPU is at, and its flags name the base.
  ghost predicate RunningAt(s: State, b: BaseId)
  {
    var r := s.base(b).running;
    r.Some? ==> Names(s, r.value, b) && Runs(s.pc(Softirq(b.cpu))) == Some((b, r.value))
  }

  ghost predicate Running(s: State)
  {
    forall b :: RunningAt(s, b)
  }

  // A bit of the bitmap stands for a bucket that is not empty.
  ghost predicate Bits(s: State)
  {
    forall b, i | i in s.base(b).pending :: exists t :: s.timer(t).place == InBucket(b, i)
  }

  ghost predicate Inv(s: State)
  {
    Locks(s) && Agents(s) && Listed(s) && Carried(s) && Migration(s) && Running(s) && Bits(s)
  }

  lemma InitInv(s: State)
    requires Init(s)
    ensures Inv(s)
  {
  }

  // ---- Ownership ----

  // An agent owns a timer while it migrates it or holds the lock of the base the flags name.
  predicate Owns(s: State, a: Agent, t: Timer)
  {
    || Migrates(s.pc(a)) == Some(t)
    || (Holds(s.pc(a)).Some? && Names(s, t, Holds(s.pc(a)).value))
  }

  lemma OneOwner(s: State, a: Agent, c: Agent, t: Timer)
    requires Inv(s) && Owns(s, a, t) && Owns(s, c, t)
    ensures a == c
  {
    assert Knows(s, s.pc(a)) && Knows(s, s.pc(c));
  }

  // Nobody but the owner writes a timer.
  lemma OnlyOwnerWrites(s: State, a: Agent, act: Act, t: Timer)
    requires Inv(s) && Step(s, a, act).Some? && !Owns(s, a, t)
    ensures Step(s, a, act).value.timer(t) == s.timer(t)
  {
    assert Fits(a, s.pc(a)) && Knows(s, s.pc(a)) && ListedAt(s, t);
  }

  lemma StepEffect(s: State, a: Agent, act: Act)
    requires Inv(s) && Step(s, a, act).Some?
    ensures var s' := Step(s, a, act).value;
      && (forall c :: c != a ==> s'.pc(c) == s.pc(c))
      && (forall b :: s'.base(b).running != s.base(b).running ==>
            a == Softirq(b.cpu) && (s'.base(b).running == None || Holds(s.pc(a)) == Some(b)))
  {
    assert Fits(a, s.pc(a)) && Knows(s, s.pc(a));
  }

  lemma OwnKnows(s: State, a: Agent, act: Act)
    requires Inv(s) && Step(s, a, act).Some?
    ensures var s' := Step(s, a, act).value; Fits(a, s'.pc(a)) && Knows(s', s'.pc(a))
  {
    hide Step, Inv, Fits, Knows;
    if a.Context? { ContextKnows(s, a, act); } else { SoftirqKnows(s, a, act); }
  }

  lemma ContextKnows(s: State, a: Agent, act: Act)
    requires Inv(s) && Step(s, a, act).Some? && a.Context?
    ensures var s' := Step(s, a, act).value; Fits(a, s'.pc(a)) && Knows(s', s'.pc(a))
  {
    assert Fits(a, s.pc(a)) && Knows(s, s.pc(a));
    if s.pc(a).Locked? { assert ListedAt(s, s.pc(a).t); }
    hide Inv, Singular, SoftirqStep;
  }

  lemma SoftirqKnows(s: State, a: Agent, act: Act)
    requires Inv(s) && Step(s, a, act).Some? && a.Softirq?
    ensures var s' := Step(s, a, act).value; Fits(a, s'.pc(a)) && Knows(s', s'.pc(a))
  {
    assert Fits(a, s.pc(a)) && Knows(s, s.pc(a));
    if act.RunTimers? { assert RunningAt(s, act.b); }
    hide Inv, HeadsEmpty, ContextStep;
  }

  lemma OtherKnows(s: State, a: Agent, act: Act, c: Agent)
    requires Inv(s) && Step(s, a, act).Some? && a != c
    ensures Knows(Step(s, a, act).value, s.pc(c))
  {
    assert Fits(c, s.pc(c)) && Knows(s, s.pc(c));
    hide Step, Inv;
    StepEffect(s, a, act);
    if s.pc(c).Locked? || Carries(s.pc(c)).Some? {
      var t := s.pc(c).t;
      assert Owns(s, c, t);
      if Owns(s, a, t) { OneOwner(s, a, c, t); }
      OnlyOwnerWrites(s, a, act, t);
      if s.pc(c).Moving? && Holds(s.pc(a)) == Holds(s.pc(c)) { SameHolder(s, a, c); }
    }
  }

  lemma SameHolder(s: State, a: Agent, c: Agent)
    requires Inv(s) && Holds(s.pc(a)).Some? && Holds(s.pc(a)) == Holds(s.pc(c))
    ensures a == c
  {
    var b := Holds(s.pc(a)).value;
    assert s.base(b).lock == Some(a);
  }

  lemma ListedByContext(s: State, a: Agent, act: Act, t: Timer)
    requires Inv(s) && Step(s, a, act).Some? && a.Context?
    ensures ListedAt(Step(s, a, act).value, t)
  {
    assert Knows(s, s.pc(a)) && ListedAt(s, t);
    hide Inv, SoftirqStep, Singular;
    if s.pc(a).Locked? {
      ListedUnderLock(s, a, act, t);
      hide LockedStep, ListedAt;
    } else {
      hide LockedStep;
    }
  }

  lemma ListedUnderLock(s: State, a: Agent, act: Act, t: Timer)
    requires s.pc(a).Locked? && ListedAt(s, t) && Names(s, s.pc(a).t, s.pc(a).b)
    requires LockedStep(s, a, act, s.pc(a).op, s.pc(a).t, s.pc(a).saw, s.pc(a).b).Some? && a.Context?
    ensures ListedAt(LockedStep(s, a, act, s.pc(a).op, s.pc(a).t, s.pc(a).saw, s.pc(a).b).value, t)
  {
  }

  lemma ListedBySoftirq(s: State, a: Agent, act: Act, t: Timer)
    requires Inv(s) && Step(s, a, act).Some? && a.Softirq?
    ensures ListedAt(Step(s, a, act).value, t)
  {
    assert Fits(a, s.pc(a)) && ListedAt(s, t);
    hide Inv, ContextStep;
    if s.pc(a).Expire? {
      ListedByExpire(s, a, act, t);
      hide SoftirqStep, ListedAt;
    } else {
      hide CollectAll;
    }
  }

  lemma ListedByExpire(s: State, a: Agent, act: Act, t: Timer)
    requires s.pc(a).Expire? && Fits(a, s.pc(a)) && ListedAt(s, t) && SoftirqStep(s, a, act).Some?
    ensures ListedAt(SoftirqStep(s, a, act).value, t)
  {
  }

  // The flags of a timer stop naming its base only when a migration begins.
  lemma NamesEffect(s: State, a: Agent, act: Act, t: Timer, b: BaseId)
    requires Inv(s) && Step(s, a, act).Some? && Names(s, t, b)
    ensures (s.pc(a).Moving? && s.pc(a).t == t) || Names(Step(s, a, act).value, t, b)
  {
    assert Knows(s, s.pc(a));
    hide Inv;
  }

  // running_timer is set to a timer of the expired list and cleared by the softirq that set it.
  lemma RunEffect(s: State, a: Agent, act: Act, b: BaseId)
    requires Inv(s) && Step(s, a, act).Some? && Step(s, a, act).value.base(b).running.Some?
    ensures var s' := Step(s, a, act).value; var t := s'.base(b).running.value;
      || (s.base(b).running == Some(t) && (a == Softirq(b.cpu) ==> Runs(s'.pc(a)) == Some((b, t))))
      || (a == Softirq(b.cpu) && Runs(s'.pc(a)) == Some((b, t)) && s.timer(t).place == OnHeads(b) && !s.pc(a).Moving?)
  {
    if a == Softirq(b.cpu) {
      assert Fits(a, s.pc(a)) && RunningAt(s, b);
      hide Inv, Knows, ContextStep, HeadsEmpty;
    } else {
      hide Step, Inv;
      StepEffect(s, a, act);
    }
  }

  lemma RunningStep(s: State, a: Agent, act: Act, b: BaseId)
    requires Inv(s) && Step(s, a, act).Some?
    ensures RunningAt(Step(s, a, act).value, b)
  {
    var s' := Step(s, a, act).value;
    assert RunningAt(s, b) && Knows(s, s.pc(a));
    if s'.base(b).running.Some? {
      assert ListedAt(s, s'.base(b).running.value);
      hide Inv, Step;
      RunEffect(s, a, act, b);
      StepEffect(s, a, act);
      NamesEffect(s, a, act, s'.base(b).running.value, b);
    }
  }

  lemma BitsStep(s: State, a: Agent, act: Act, b: BaseId, i: nat)
    requires Inv(s) && Step(s, a, act).Some? && i in Step(s, a, act).value.base(b).pending
    ensures exists t :: Step(s, a, act).value.timer(t).place == InBucket(b, i)
  {
    var s' := Step(s, a, act).value;
    assert Knows(s, s.pc(a));
    if s.pc(a).Ready? && s.pc(a).b == b && act == Bucket(i) {
      assert s'.timer(s.pc(a).t).place == InBucket(b, i);
    } else {
      assert i in s.base(b).pending;
      var t :| s.timer(t).place == InBucket(b, i);
      if s'.timer(t).place != InBucket(b, i) {
        hide Bits;
        SharesBucket(s, a, act, b, i, t);
      }
    }
  }

  // A bit that stays set while a timer leaves the bucket stands for another one.
  lemma SharesBucket(s: State, a: Agent, act: Act, b: BaseId, i: nat, t: Timer)
    requires Inv(s) && Step(s, a, act).Some? && i in Step(s, a, act).value.base(b).pending
    requires s.timer(t).place == InBucket(b, i) != Step(s, a, act).value.timer(t).place
    ensures exists u :: Step(s, a, act).value.timer(u).place == InBucket(b, i)
  {
    assert Knows(s, s.pc(a)) && ListedAt(s, t);
    hide Inv;
    var u :| u != t && s.timer(u).place == InBucket(b, i);
    assert Step(s, a, act).value.timer(u).place == InBucket(b, i);
  }

  lemma KeepAgents(s: State, a: Agent, act: Act)
    requires Inv(s) && Step(s, a, act).Some?
    ensures Agents(Step(s, a, act).value)
  {
    var s' := Step(s, a, act).value;
    assert forall c :: Fits(c, s.pc(c));
    hide Inv, Step, Knows, Fits;
    StepEffect(s, a, act);
    forall c ensures Fits(c, s'.pc(c)) && Knows(s', s'.pc(c)) {
      if c == a { OwnKnows(s, a, act); } else { OtherKnows(s, a, act, c); }
    }
  }

  lemma KeepLists(s: State, a: Agent, act: Act)
    requires Inv(s) && Step(s, a, act).Some?
    ensures Listed(Step(s, a, act).value) && Running(Step(s, a, act).value) && Bits(Step(s, a, act).value)
  {
    hide Inv, Step, ListedAt, RunningAt;
    var s' := Step(s, a, act).value;
    forall t ensures ListedAt(s', t) {
      if a.Context? { ListedByContext(s, a, act, t); } else { ListedBySoftirq(s, a, act, t); }
    }
    forall b ensures RunningAt(s', b) { RunningStep(s, a, act, b); }
    forall b, i | i in s'.base(b).pending ensures exists t :: s'.timer(t).place == InBucket(b, i) {
      BitsStep(s, a, act, b, i);
    }
  }

  // A lock is taken when free and given back by its holder.
  ghost predicate LockMoves(s: State, s': State, a: Agent, b: BaseId)
  {
    var had, has := Holds(s.pc(a)) == Some(b), Holds(s'.pc(a)) == Some(b);
    && (has && !had ==> s.base(b).lock == None)
    && s'.base(b).lock == if has then Some(a) else if had then None else s.base(b).lock
  }

  lemma LockByContext(s: State, a: Agent, act: Act, b: BaseId)
    requires Locks(s) && Step(s, a, act).Some? && a.Context?
    ensures LockMoves(s, Step(s, a, act).value, a, b)
  {
    assert Holds(s.pc(a)) == Some(b) ==> s.base(b).lock == Some(a);
    hide Locks, Singular, SoftirqStep;
    if s.pc(a).Locked? {
      LockKept(s, a, act, b);
      hide LockedStep;
    } else {
      hide LockedStep;
    }
  }

  lemma LockKept(s: State, a: Agent, act: Act, b: BaseId)
    requires s.pc(a).Locked?
    requires LockedStep(s, a, act, s.pc(a).op, s.pc(a).t, s.pc(a).saw, s.pc(a).b).Some?
    ensures var s' := LockedStep(s, a, act, s.pc(a).op, s.pc(a).t, s.pc(a).saw, s.pc(a).b).value;
      Holds(s'.pc(a)) == Holds(s.pc(a)) && s'.base(b).lock == s.base(b).lock
  {
    hide Singular;
  }

  lemma LockBySoftirq(s: State, a: Agent, act: Act, b: BaseId)
    requires Locks(s) && Step(s, a, act).Some? && a.Softirq?
    ensures LockMoves(s, Step(s, a, act).value, a, b)
  {
    assert Holds(s.pc(a)) == Some(b) ==> s.base(b).lock == Some(a);
    hide Locks, HeadsEmpty, ContextStep;
  }

  lemma LockEffect(s: State, a: Agent, act: Act, b: BaseId)
    requires Locks(s) && Step(s, a, act).Some?
    ensures LockMoves(s, Step(s, a, act).value, a, b)
  {
    hide Step, Locks, LockMoves;
    if a.Context? { LockByContext(s, a, act, b); } else { LockBySoftirq(s, a, act, b); }
  }

  lemma KeepLocks(s: State, a: Agent, act: Act)
    requires Inv(s) && Step(s, a, act).Some?
    ensures Locks(Step(s, a, act).value)
  {
    assert Locks(s);
    hide Inv, Step, Holds, LockMoves, Locks;
    var s' := Step(s, a, act).value;
    StepEffect(s, a, act);
    forall b ensures LockMoves(s, s', a, b) { LockEffect(s, a, act, b); }
    LocksFollow(s, s', a);
  }

  lemma LocksFollow(s: State, s': State, a: Agent)
    requires Locks(s) && (forall b :: LockMoves(s, s', a, b)) && forall c :: c != a ==> s'.pc(c) == s.pc(c)
    ensures Locks(s')
  {
    hide Holds;
    forall c, b | Holds(s'.pc(c)) == Some(b) ensures s'.base(b).lock == Some(c) { assert LockMoves(s, s', a, b); }
    forall b | s'.base(b).lock.Some? ensures Holds(s'.pc(s'.base(b).lock.value)) == Some(b) {
      assert LockMoves(s, s', a, b);
    }
  }

  lemma KeepCarried(s: State, a: Agent, act: Act)
    requires Inv(s) && Step(s, a, act).Some?
    ensures Carried(Step(s, a, act).value)
  {
    assert Carried(s);
    hide Inv, Step;
    var s' := Step(s, a, act).value;
    StepEffect(s, a, act);
    forall t | s'.timer(t).mark && s'.timer(t).place == Nowhere ensures exists c :: Carries(s'.pc(c)) == Some(t) {
      CarryEffect(s, a, act, t);
      if Carries(s'.pc(a)) != Some(t) {
        var c :| Carries(s.pc(c)) == Some(t);
        assert Carries(s'.pc(c)) == Some(t);
      }
    }
  }

  // A timer is left marked and unlisted only by a context that carries it on.
  lemma CarryEffect(s: State, a: Agent, act: Act, t: Timer)
    requires Step(s, a, act).Some?
    ensures var s' := Step(s, a, act).value;
      s'.timer(t).mark && s'.timer(t).place == Nowhere && Carries(s'.pc(a)) != Some(t) ==>
        Carries(s.pc(a)) != Some(t) && s.timer(t).mark && s.timer(t).place == Nowhere
  {
  }

  // A migration begins on an owned timer whose flag was clear and ends by clearing the flag.
  lemma MigrationEffect(s: State, a: Agent, act: Act, t: Timer)
    requires Inv(s) && Step(s, a, act).Some?
    ensures MigrationMoves(s, Step(s, a, act).value, a, t)
  {
    hide Step, Inv, MigrationMoves;
    if a.Context? { MigrationByContext(s, a, act, t); } else { MigrationBySoftirq(s, a, act, t); }
  }

  ghost predicate MigrationMoves(s: State, s': State, a: Agent, t: Timer)
  {
    var had, has := Migrates(s.pc(a)) == Some(t), Migrates(s'.pc(a)) == Some(t);
    && (has && !had ==> !s.timer(t).flags.migrating)
    && s'.timer(t).flags.migrating == (has || (!had && s.timer(t).flags.migrating))
  }

  lemma MigrationByContext(s: State, a: Agent, act: Act, t: Timer)
    requires Inv(s) && Step(s, a, act).Some? && a.Context?
    ensures MigrationMoves(s, Step(s, a, act).value, a, t)
  {
    assert Knows(s, s.pc(a));
    assert s.pc(a).Moving? ==> !s.timer(s.pc(a).t).flags.migrating;
    assert Migrates(s.pc(a)).Some? ==> s.timer(Migrates(s.pc(a)).value).flags.migrating;
    hide Inv, Knows, Singular, SoftirqStep;
  }

  lemma MigrationBySoftirq(s: State, a: Agent, act: Act, t: Timer)
    requires Inv(s) && Step(s, a, act).Some? && a.Softirq?
    ensures MigrationMoves(s, Step(s, a, act).value, a, t)
  {
    assert Fits(a, s.pc(a));
    hide Inv, Knows, HeadsEmpty, ContextStep;
  }

  lemma KeepMigration(s: State, a: Agent, act: Act)
    requires Inv(s) && Step(s, a, act).Some?
    ensures Migration(Step(s, a, act).value)
  {
    assert Migration(s) && forall c :: Knows(s, s.pc(c));
    hide Inv, Step;
    var s' := Step(s, a, act).value;
    StepEffect(s, a, act);
    forall t | s'.timer(t).flags.migrating ensures exists c :: Migrates(s'.pc(c)) == Some(t) {
      MigrationEffect(s, a, act, t);
      if Migrates(s'.pc(a)) != Some(t) {
        var c :| Migrates(s.pc(c)) == Some(t);
        assert Migrates(s'.pc(c)) == Some(t);
      }
    }
    forall c, d | Migrates(s'.pc(c)).Some? && Migrates(s'.pc(c)) == Migrates(s'.pc(d)) ensures c == d {
      MigrationEffect(s, a, act, Migrates(s'.pc(c)).value);
    }
  }

  // ---- Runs ----

  ghost predicate Next(s: State, s': State)
  {
    exists a, act :: Step(s, a, act) == Some(s')
  }

  ghost predicate Run(tr: seq<State>)
  {
    |tr| > 0 && Init(tr[0]) && forall i :: 0 <= i < |tr| - 1 ==> Next(tr[i], tr[i + 1])
  }

  lemma StepInv(s: State, a: Agent, act: Act)
    requires Inv(s) && Step(s, a, act).Some?
    ensures Inv(Step(s, a, act).value)
  {
    hide Step, Locks, Agents, Listed, Carried, Migration, Running, Bits;
    KeepLocks(s, a, act);
    KeepAgents(s, a, act);
    KeepLists(s, a, act);
    KeepCarried(s, a, act);
    KeepMigration(s, a, act);
  }

  lemma {:induction false} RunInv(tr: seq<State>, k: nat)
    requires Run(tr) && k < |tr|
    ensures Inv(tr[k])
  {
    hide Step, Inv;
    if k == 0 {
      InitInv(tr[0]);
    } else {
      RunInv(tr, k - 1);
      var a, act := StepOf(tr, k);
      StepInv(tr[k - 1], a, act);
    }
  }

  lemma StepOf(tr: seq<State>, k: nat) returns (a: Agent, act: Act)
    requires Run(tr) && 0 < k < |tr|
    ensures Step(tr[k - 1], a, act) == Some(tr[k])
  {
    hide Step;
    assert Next(tr[k - 1], tr[k - 1 + 1]);
    a, act :| Step(tr[k - 1], a, act) == Some(tr[k]);
  }

  // ---- What holds in every state of every run ----

  // At most one agent owns a timer, and only the owner's steps write it.
  lemma RaceFree(tr: seq<State>, k: nat, a: Agent, c: Agent, act: Act, t: Timer)
    requires Run(tr) && k < |tr| && Owns(tr[k], a, t) && a != c
    ensures !Owns(tr[k], c, t)
    ensures Step(tr[k], c, act).Some? ==> Step(tr[k], c, act).value.timer(t) == tr[k].timer(t)
  {
    hide Step;
    RunInv(tr, k);
    if Owns(tr[k], c, t) { OneOwner(tr[k], a, c, t); }
    if Step(tr[k], c, act).Some? { OnlyOwnerWrites(tr[k], c, act, t); }
  }

  // A queued or running timer's flags name the base that holds it, and nobody is migrating it.
  lemma FlagsNameBase(tr: seq<State>, k: nat, t: Timer, b: BaseId)
    requires Run(tr) && k < |tr|
    requires tr[k].timer(t).place == OnHeads(b) || (tr[k].timer(t).place.InBucket? && tr[k].timer(t).place.base == b)
          || tr[k].base(b).running == Some(t)
    ensures Names(tr[k], t, b)
    ensures forall a :: Migrates(tr[k].pc(a)) != Some(t)
  {
    RunInv(tr, k);
    assert ListedAt(tr[k], t) && RunningAt(tr[k], b);
    forall a ensures Migrates(tr[k].pc(a)) != Some(t) { assert Knows(tr[k], tr[k].pc(a)); }
  }

  // A timer's handler never runs on two CPUs at once, nor twice on one.
  lemma HandlerOnce(tr: seq<State>, k: nat, a: Agent, c: Agent)
    requires Run(tr) && k < |tr|
    requires Runs(tr[k].pc(a)).Some? && Runs(tr[k].pc(c)).Some?
    requires Runs(tr[k].pc(a)).value.1 == Runs(tr[k].pc(c)).value.1
    ensures a == c
  {
    RunInv(tr, k);
    var s := tr[k];
    assert Knows(s, s.pc(a)) && Knows(s, s.pc(c)) && Fits(a, s.pc(a)) && Fits(c, s.pc(c));
    assert RunningAt(s, Runs(s.pc(a)).value.0) && RunningAt(s, Runs(s.pc(c)).value.0);
  }

  // The bitmap tells exactly which buckets hold timers.
  lemma BitmapExact(tr: seq<State>, k: nat, b: BaseId, i: nat)
    requires Run(tr) && k < |tr|
    ensures i in tr[k].base(b).pending <==> exists t :: tr[k].timer(t).place == InBucket(b, i)
  {
    RunInv(tr, k);
    if t :| tr[k].timer(t).place == InBucket(b, i) { assert ListedAt(tr[k], t); }
  }

  // With the lock held, timer_pending() tells whether the timer is on a list, although
  // __mod_timer keeps the mark on while it carries the timer.
  lemma MarkUnderLock(s: State, a: Agent)
    requires Inv(s) && s.pc(a).Locked?
    ensures s.timer(s.pc(a).t).mark <==> s.timer(s.pc(a).t).place != Nowhere
  {
    var t := s.pc(a).t;
    assert ListedAt(s, t) && Knows(s, s.pc(a));
    if s.timer(t).mark && s.timer(t).place == Nowhere {
      var c :| Carries(s.pc(c)) == Some(t);
      assert Knows(s, s.pc(c));
      assert Owns(s, a, t) && Owns(s, c, t);
      OneOwner(s, a, c, t);
      assert false;
    }
  }

  // Every agent that is under way can step or waits for a lock whose holder can step; so no set of
  // agents waits in a circle, and no lock is left taken.
  lemma NoDeadlock(tr: seq<State>, k: nat, a: Agent)
    requires Run(tr) && k < |tr| && tr[k].pc(a) != Idle
    ensures var s := tr[k];
      || CanStep(s, a)
      || exists b :: s.base(b).lock.Some? && s.base(b).lock.value != a && CanStep(s, s.base(b).lock.value)
  {
    RunInv(tr, k);
    var s := tr[k];
    assert Fits(a, s.pc(a));
    var w := WaitsFor(s.pc(a));
    if w.Some? && s.base(w.value).lock.Some? {
      HolderSteps(s, s.base(w.value).lock.value);
    } else if Holds(s.pc(a)).Some? {
      HolderSteps(s, a);
    } else {
      assert Step(s, a, Go).Some?;
    }
  }

  // The lock an agent is spinning on.
  function WaitsFor(p: Pc): Option<BaseId>
  {
    match p
    case Read(_, _, _, tf) => Some(BaseOf(tf))
    case Between(_, _, n, _) => Some(n)
    case Wait(b) => Some(b)
    case _ => None
  }

  ghost predicate CanStep(s: State, a: Agent)
  {
    exists act :: Step(s, a, act).Some?
  }

  lemma HolderSteps(s: State, a: Agent)
    requires Inv(s) && Holds(s.pc(a)).Some?
    ensures CanStep(s, a)
  {
    assert Fits(a, s.pc(a));
    if s.pc(a).Detached? {
      assert Step(s, a, Target(0)).Some?;
    } else if s.pc(a).Ready? {
      assert Step(s, a, Bucket(0)).Some?;
    } else if s.pc(a).Expire? {
      if t :| s.timer(t).place == OnHeads(s.pc(a).b) {
        assert Step(s, a, Take(t)).Some?;
      } else {
        assert Step(s, a, Stop).Some?;
      }
    } else {
      assert Step(s, a, Go).Some?;
    }
  }

  // ---- Deletion ----

  // On no list, and no CPU is at its handler.
  ghost predicate Quiet(s: State, t: Timer)
  {
    s.timer(t).place == Nowhere && forall a :: Runs(s.pc(a)).Some? ==> Runs(s.pc(a)).value.1 != t
  }

  // Quiet, marked as not pending, and no context is carrying it to a list.
  ghost predicate Off(s: State, t: Timer)
  {
    Quiet(s, t) && !s.timer(t).mark && forall a :: Carries(s.pc(a)) != Some(t)
  }

  // Every context in __mod_timer with t has MOD_TIMER_PENDING_ONLY set: mod_timer_pending is not a
  // restart.
  ghost predicate NoRestart(s: State, t: Timer)
  {
    forall a :: OpOf(s.pc(a)).Some? && OpOf(s.pc(a)).value.1 == t && OpOf(s.pc(a)).value.0.Mod? ==>
      OpOf(s.pc(a)).value.0.pendingOnly
  }

  // The call a context is in.
  function OpOf(p: Pc): Option<(Op, Timer)>
  {
    match p
    case Begin(op, t) => Some((op, t))
    case Spin(op, t, _) => Some((op, t))
    case Read(op, t, _, _) => Some((op, t))
    case Check(op, t, _, _) => Some((op, t))
    case Locked(op, t, _, _) => Some((op, t))
    case Detached(op, t, _, _) => Some((op, t))
    case Moving(op, t, _, _, _) => Some((op, t))
    case Flagged(op, t, _, _, _) => Some((op, t))
    case Between(op, t, _, _) => Some((op, t))
    case Arrived(op, t, _, _) => Some((op, t))
    case Ready(op, t, _, _) => Some((op, t))
    case Leave(op, t, _, _) => Some((op, t))
    case Done(op, t, _) => Some((op, t))
    case _ => None
  }

  // The step on which try_to_del_timer_sync decides: it fails exactly while the base runs the timer;
  // otherwise the timer is off there and then, whatever other CPUs are doing, contexts that are about
  // to restart it included, and the result says whether it was on a list.
  lemma TryDelDecides(s: State, a: Agent, act: Act)
    requires Inv(s) && Step(s, a, act).Some? && s.pc(a).Locked? && s.pc(a).op.TryDel?
    ensures var s' := Step(s, a, act).value; var t := s.pc(a).t;
      && s'.pc(a) == Leave(s.pc(a).op, t, s.pc(a).b,
           if s.base(s.pc(a).b).running == Some(t) then -1 else if s.timer(t).place != Nowhere then 1 else 0)
      && (s'.pc(a).ret >= 0 ==> Off(s', t))
      && (s'.pc(a).ret < 0 ==> s'.timer == s.timer && exists c, b :: Runs(s.pc(c)) == Some((b, t)))
  {
    var t, b := s.pc(a).t, s.pc(a).b;
    MarkUnderLock(s, a);
    assert Fits(a, s.pc(a)) && Knows(s, s.pc(a)) && RunningAt(s, b);
    forall c | Runs(s.pc(c)).Some? && Runs(s.pc(c)).value.1 == t ensures s.base(b).running == Some(t) {
      assert Knows(s, s.pc(c)) && RunningAt(s, Runs(s.pc(c)).value.0);
    }
    forall c ensures Carries(s.pc(c)) != Some(t) {
      if Carries(s.pc(c)) == Some(t) {
        assert Knows(s, s.pc(c)) && Owns(s, a, t) && Owns(s, c, t);
        OneOwner(s, a, c, t);
      }
    }
  }

  // A timer that is off stays off under every step, as long as whoever is in __mod_timer with it
  // only means to modify it while pending.
  lemma OffStays(s: State, a: Agent, act: Act, t: Timer)
    requires Inv(s) && Step(s, a, act).Some? && Off(s, t) && NoRestart(s, t)
    ensures Off(Step(s, a, act).value, t)
  {
    hide Step, Inv, Off, NoRestart;
    if a.Context? { OffUnderContext(s, a, act, t); } else { OffUnderSoftirq(s, a, act, t); }
  }

  lemma OffUnderContext(s: State, a: Agent, act: Act, t: Timer)
    requires Inv(s) && Step(s, a, act).Some? && Off(s, t) && NoRestart(s, t) && a.Context?
    ensures Off(Step(s, a, act).value, t)
  {
    assert s.pc(a).Locked? && s.pc(a).t == t && s.pc(a).op.Mod? ==>
      OpOf(s.pc(a)).value.1 == t && s.pc(a).op.pendingOnly;
    hide Inv, Knows, Singular, HeadsEmpty, NoRestart, OpOf, SoftirqStep;
    if s.pc(a).Locked? {
      OffUnderLock(s, a, act, t);
      hide LockedStep;
    } else {
      hide LockedStep;
    }
  }

  lemma OffUnderLock(s: State, a: Agent, act: Act, t: Timer)
    requires s.pc(a).Locked? && Off(s, t) && (s.pc(a).t == t && s.pc(a).op.Mod? ==> s.pc(a).op.pendingOnly)
    requires LockedStep(s, a, act, s.pc(a).op, s.pc(a).t, s.pc(a).saw, s.pc(a).b).Some?
    ensures Off(LockedStep(s, a, act, s.pc(a).op, s.pc(a).t, s.pc(a).saw, s.pc(a).b).value, t)
  {
    hide Singular;
  }

  lemma OffUnderSoftirq(s: State, a: Agent, act: Act, t: Timer)
    requires Inv(s) && Step(s, a, act).Some? && Off(s, t) && a.Softirq?
    ensures Off(Step(s, a, act).value, t)
  {
    assert Fits(a, s.pc(a));
    hide Inv, Knows, Singular, HeadsEmpty, ContextStep;
  }

  // In a run, agent a is in one call of op for t from i to k.
  ghost predicate InCall(tr: seq<State>, i: nat, k: nat, a: Agent, t: Timer, op: Op)
  {
    && i <= k < |tr|
    && tr[i].pc(a) == Begin(op, t)
    && forall j :: i <= j <= k ==> OpOf(tr[j].pc(a)) == Some((op, t))
  }

  // The call has decided that the timer is gone.
  predicate Deleted(p: Pc, t: Timer, sync: bool)
  {
    match p
    case Leave(op, u, _, ret) => op == TryDel(sync) && u == t && ret >= 0
    case Done(op, u, ret) => op == TryDel(sync) && u == t && ret >= 0
    case _ => false
  }

  // From the decision on the timer is off, as long as nobody restarts it from then on.
  lemma {:induction false} DeletedIsOff(tr: seq<State>, i: nat, k: nat, a: Agent, t: Timer, sync: bool)
    requires Run(tr) && InCall(tr, i, k, a, t, TryDel(sync))
    requires forall j :: i <= j < k && Deleted(tr[j].pc(a), t, sync) ==> NoRestart(tr[j], t)
    ensures Deleted(tr[k].pc(a), t, sync) ==> Off(tr[k], t)
  {
    hide Step, Inv, Off, NoRestart;
    if k > i && Deleted(tr[k].pc(a), t, sync) {
      DeletedIsOff(tr, i, k - 1, a, t, sync);
      RunInv(tr, k - 1);
      var c, act := StepOf(tr, k);
      DeleteStep(tr[k - 1], c, act, a, t, sync);
    }
  }

  lemma DeleteStep(s: State, c: Agent, act: Act, a: Agent, t: Timer, sync: bool)
    requires Inv(s) && Step(s, c, act).Some? && OpOf(s.pc(a)) == Some((TryDel(sync), t))
    requires Deleted(s.pc(a), t, sync) ==> NoRestart(s, t) && Off(s, t)
    requires Deleted(Step(s, c, act).value.pc(a), t, sync)
    ensures Off(Step(s, c, act).value, t)
  {
    if Deleted(s.pc(a), t, sync) {
      hide Step, Inv;
      OffStays(s, c, act, t);
    } else {
      StepEffect(s, c, act);
      assert Knows(s, s.pc(c)) && Fits(c, s.pc(c));
      assert s.pc(a).Locked?;
      hide Off;
      TryDelDecides(s, c, act);
    }
  }

  // When del_timer_sync returns, or try_to_del_timer_sync with a result of at least 0, and from then
  // on as long as nobody restarts the timer, it is on no list, no CPU is at its handler and nobody is
  // about to put it on a list. Restarts before the decision do no harm, nor does mod_timer_pending.
  lemma {:induction false} DeleteReturns(tr: seq<State>, i: nat, k: nat, m: nat, a: Agent, t: Timer, sync: bool)
    requires Run(tr) && InCall(tr, i, k, a, t, TryDel(sync)) && k <= m < |tr|
    requires tr[k].pc(a).Done? && (sync || tr[k].pc(a).ret >= 0)
    requires forall j :: i <= j < m && (j >= k || Deleted(tr[j].pc(a), t, sync)) ==> NoRestart(tr[j], t)
    ensures Off(tr[m], t)
  {
    hide Step, Off, NoRestart;
    if m == k {
      RunInv(tr, k);
      assert Knows(tr[k], tr[k].pc(a));
      DeletedIsOff(tr, i, k, a, t, sync);
    } else {
      hide Inv;
      DeleteReturns(tr, i, k, m - 1, a, t, sync);
      RunInv(tr, m - 1);
      var c, act := StepOf(tr, m);
      OffStays(tr[m - 1], c, act, t);
    }
  }

  // ---- Restarting ----

  // mod_timer either carries the timer on to be enqueued, or returns at once and leaves the timer as
  // queued as it was. Without MOD_TIMER_PENDING_ONLY the second is right only if the timer is still
  // queued; the bucket comparison does not ask.
  lemma ModDecides(s: State, a: Agent, act: Act)
    requires Inv(s) && Step(s, a, act).Some? && s.pc(a).Locked? && s.pc(a).op.Mod?
    ensures var s' := Step(s, a, act).value; var t := s.pc(a).t; var op := s.pc(a).op;
      && (s'.pc(a).Detached? || s'.pc(a).Leave?)
      && (s'.pc(a).Detached? ==> (Carries(s'.pc(a)) == Some(t) && s'.timer(t).place == Nowhere
            && s'.pc(a).ret == if s.timer(t).place != Nowhere then 1 else 0))
      && (s'.pc(a).Leave? ==> s'.timer == s.timer)
      && (s'.pc(a).Leave? && !op.pendingOnly && s.timer(t).place == Nowhere <==>
            !op.pendingOnly && s.timer(t).place == Nowhere && act.Same?)
      && (act.Same? ==> s.pc(a).saw && s'.pc(a).ret == 1)
  {
    MarkUnderLock(s, a);
    assert Fits(a, s.pc(a));
  }

  // The step from s to s' is the one on which agent a is done with t: the timer is on a list then, or
  // the bucket comparison has let it go without being on one, or only a queued timer was to be changed
  // and t was not.
  ghost predicate Settles(s: State, s': State, a: Agent, t: Timer)
  {
    && !s.pc(a).Leave? && s'.pc(a).Leave?
    && (s'.timer(t).place != Nowhere
        || (s.timer(t).place == Nowhere && s.pc(a).Locked? && Step(s, a, Same(s.timer(t).flags.idx)) == Some(s'))
        || (s.timer(t).place == Nowhere && s.pc(a).Locked? && s.pc(a).op.Mod? && s.pc(a).op.pendingOnly))
  }

  lemma ModSettles(s: State, c: Agent, act: Act, a: Agent, t: Timer, op: Op)
    requires Inv(s) && Step(s, c, act).Some? && op.Mod? && OpOf(s.pc(a)) == Some((op, t))
    ensures var s' := Step(s, c, act).value; var p, p' := s.pc(a), s'.pc(a);
      && (p'.Leave? && !p.Leave? ==> Settles(s, s', a, t))
      && (p'.Done? ==> p.Leave? || p.Done?)
  {
    StepEffect(s, c, act);
    if c == a {
      assert Fits(a, s.pc(a));
      if s.pc(a).Locked? {
        MarkUnderLock(s, a);
        ModDecides(s, a, act);
      }
      hide Inv, SoftirqStep;
    } else {
      hide Step, Inv;
    }
  }

  // When mod_timer returns, it has at some step of the call left the timer on a list, or let it go by
  // the bucket comparison, or, with MOD_TIMER_PENDING_ONLY, found it on no list.
  lemma ModReturns(tr: seq<State>, i: nat, k: nat, a: Agent, t: Timer, op: Op)
    requires Run(tr) && InCall(tr, i, k, a, t, op) && op.Mod? && tr[k].pc(a).Done?
    ensures exists j :: i <= j < k && Settles(tr[j], tr[j + 1], a, t)
  {
    hide Run, InCall, Settles;
    var j := SettledAt(tr, i, k, a, t, op);
  }

  lemma {:induction false} SettledAt(tr: seq<State>, i: nat, k: nat, a: Agent, t: Timer, op: Op) returns (j: nat)
    requires Run(tr) && InCall(tr, i, k, a, t, op) && op.Mod?
    requires tr[k].pc(a).Done? || tr[k].pc(a).Leave?
    ensures i <= j < k && Settles(tr[j], tr[j + 1], a, t)
    decreases k
  {
    hide Run, Settles, Inv, Step;
    assert k > i;
    RunInv(tr, k - 1);
    var c, act := StepOf(tr, k);
    ModSettles(tr[k - 1], c, act, a, t, op);
    if tr[k - 1].pc(a).Leave? || tr[k - 1].pc(a).Done? {
      j := SettledAt(tr, i, k - 1, a, t, op);
    } else {
      j := k - 1;
    }
  }

  // ---- Results ----

  // What the call will return, once it is settled.
  function ResultOf(p: Pc): Option<int>
  {
    match p
    case Detached(_, _, _, ret) => Some(ret)
    case Moving(_, _, _, _, ret) => Some(ret)
    case Flagged(_, _, _, _, ret) => Some(ret)
    case Between(_, _, _, ret) => Some(ret)
    case Arrived(_, _, _, ret) => Some(ret)
    case Ready(_, _, _, ret) => Some(ret)
    case Leave(_, _, _, ret) => Some(ret)
    case Done(_, _, ret) => Some(ret)
    case _ => None
  }

  // On no list, marked as not pending, and no context is carrying it to a list.
  ghost predicate Gone(s: State, t: Timer)
  {
    s.timer(t).place == Nowhere && !s.timer(t).mark && forall c :: Carries(s.pc(c)) != Some(t)
  }

  ghost predicate AtHandler(s: State, t: Timer)
  {
    exists c, b :: Runs(s.pc(c)) == Some((b, t))
  }

  // From s to s' no timer but t is changed.
  ghost predicate OnlyChanges(s: State, s': State, t: Timer)
  {
    forall u :: u != t ==> s'.timer(u) == s.timer(u)
  }

  // On the step from s to s' del_timer settles on ret: it finds the timer not pending without the lock,
  // or takes it off its list, if it is on one, with the lock.
  ghost predicate DelAnswers(s: State, s': State, a: Agent, t: Timer, ret: int)
  {
    || (s.pc(a).Begin? && ret == 0 && s.timer(t).place == Nowhere && !s.timer(t).mark && s'.timer == s.timer)
    || (s.pc(a).Locked? && ret == Queued(s, t) && Gone(s', t) && OnlyChanges(s, s', t))
  }

  function Queued(s: State, t: Timer): int { if s.timer(t).place != Nowhere then 1 else 0 }

  // try_to_del_timer_sync: it fails while the timer's handler is at work, and otherwise does the same,
  // with no CPU at the handler.
  ghost predicate TryDelAnswers(s: State, s': State, a: Agent, t: Timer, ret: int)
  {
    && s.pc(a).Locked?
    && if AtHandler(s, t) then ret == -1 && s'.timer == s.timer
       else ret == Queued(s, t) && Gone(s', t) && !AtHandler(s', t) && OnlyChanges(s, s', t)
  }

  // __mod_timer: it carries the timer on, if that is queued or may be started; or it leaves it as it
  // is, because there is nothing to change, or because the bucket stays the same.
  ghost predicate ModAnswers(s: State, s': State, a: Agent, t: Timer, op: Op, ret: int)
    requires op.Mod?
  {
    && s.pc(a).Locked?
    && (|| (ret == Queued(s, t) && (op.pendingOnly ==> ret == 1) && Carries(s'.pc(a)) == Some(t)
            && s'.timer(t).place == Nowhere && OnlyChanges(s, s', t))
        || (s'.pc(a).Leave? && s'.timer == s.timer
            && (|| (ret == 0 == Queued(s, t) && op.pendingOnly)
                || (ret == 1 == Queued(s, t) && op.reduce)
                || (ret == 1 && BySame(s, s', a, t)))))
  }

  // The step is the bucket comparison, on a timer found pending before.
  ghost predicate BySame(s: State, s': State, a: Agent, t: Timer)
  {
    s.pc(a).Locked? && s.pc(a).saw && Step(s, a, Same(s.timer(t).flags.idx)) == Some(s')
  }

  ghost predicate Answers(s: State, s': State, a: Agent, t: Timer, op: Op, ret: int)
  {
    match op
    case Mod(_, _) => ModAnswers(s, s', a, t, op, ret)
    case Del => DelAnswers(s, s', a, t, ret)
    case TryDel(_) => TryDelAnswers(s, s', a, t, ret)
  }

  // With the lock held nobody carries the timer, and the base tells whether its handler is at work.
  lemma LockedKnows(s: State, a: Agent)
    requires Inv(s) && s.pc(a).Locked?
    ensures var t := s.pc(a).t;
      && (s.timer(t).mark <==> s.timer(t).place != Nowhere)
      && (forall c :: Carries(s.pc(c)) != Some(t))
      && (s.base(s.pc(a).b).running == Some(t) <==> AtHandler(s, t))
  {
    var t, b := s.pc(a).t, s.pc(a).b;
    MarkUnderLock(s, a);
    assert Knows(s, s.pc(a)) && RunningAt(s, b);
    forall c ensures Carries(s.pc(c)) != Some(t) {
      if Carries(s.pc(c)) == Some(t) {
        assert Knows(s, s.pc(c)) && Owns(s, a, t) && Owns(s, c, t);
        OneOwner(s, a, c, t);
      }
    }
    if c, d :| Runs(s.pc(c)) == Some((d, t)) {
      assert Knows(s, s.pc(c)) && RunningAt(s, d);
    }
  }

  lemma LockedAnswers(s: State, a: Agent, act: Act)
    requires Inv(s) && Step(s, a, act).Some? && s.pc(a).Locked?
    ensures var s', op := Step(s, a, act).value, s.pc(a).op;
      ResultOf(s'.pc(a)).Some? && Answers(s, s', a, s.pc(a).t, op, ResultOf(s'.pc(a)).value)
  {
    LockedKnows(s, a);
    assert Fits(a, s.pc(a));
    hide Inv, SoftirqStep, Singular;
  }

  // A result that is settled stays until the call returns or, in del_timer_sync, tries again; it is
  // settled with the lock held, or by del_timer before.
  lemma ResultStep(s: State, c: Agent, act: Act, a: Agent, t: Timer, op: Op)
    requires Inv(s) && Step(s, c, act).Some? && OpOf(s.pc(a)) == Some((op, t))
    ensures var s' := Step(s, c, act).value; var r, r' := ResultOf(s.pc(a)), ResultOf(s'.pc(a));
      OpOf(s'.pc(a)) == Some((op, t)) && r'.Some? ==> r' == r || (r == None && Answers(s, s', a, t, op, r'.value))
  {
    StepEffect(s, c, act);
    if c == a {
      assert Fits(a, s.pc(a)) && ListedAt(s, t);
      if s.pc(a).Locked? {
        LockedAnswers(s, a, act);
        hide Step, Answers;
      } else {
        hide Inv, SoftirqStep, LockedStep;
      }
    } else {
      hide Step, Inv;
    }
  }

  // When a call has settled its result, there was a step of it that gave that answer, and from there on
  // it kept it.
  lemma {:induction false} CallAnswers(tr: seq<State>, i: nat, k: nat, a: Agent, t: Timer, op: Op) returns (j: nat)
    requires Run(tr) && InCall(tr, i, k, a, t, op) && ResultOf(tr[k].pc(a)).Some?
    ensures i <= j < k < |tr| && Answers(tr[j], tr[j + 1], a, t, op, ResultOf(tr[k].pc(a)).value)
    ensures forall m :: j < m <= k ==> ResultOf(tr[m].pc(a)) == ResultOf(tr[k].pc(a))
    decreases k
  {
    hide Run, Answers, Inv, Step;
    assert k > i;
    RunInv(tr, k - 1);
    var c, act := StepOf(tr, k);
    ResultStep(tr[k - 1], c, act, a, t, op);
    if ResultOf(tr[k - 1].pc(a)).Some? {
      j := CallAnswers(tr, i, k - 1, a, t, op);
    } else {
      j := k - 1;
    }
  }

  // What __mod_timer remembers of timer_pending is what it was on its first step.
  lemma {:induction false} SawPending(tr: seq<State>, i: nat, k: nat, a: Agent, t: Timer, op: Op) returns (h: nat)
    requires Run(tr) && InCall(tr, i, k, a, t, op) && op.Mod?
    requires tr[k].pc(a).Spin? || tr[k].pc(a).Read? || tr[k].pc(a).Check? || tr[k].pc(a).Locked?
    ensures i <= h < k && tr[h].pc(a) == Begin(op, t) && tr[h + 1].pc(a) != Begin(op, t)
    ensures tr[k].pc(a).saw == tr[h].timer(t).mark
    decreases k
  {
    hide Run, Inv, Step;
    assert k > i;
    RunInv(tr, k - 1);
    var c, act := StepOf(tr, k);
    SawStep(tr[k - 1], c, act, a, t, op);
    if tr[k - 1].pc(a) == Begin(op, t) {
      h := k - 1;
    } else {
      h := SawPending(tr, i, k - 1, a, t, op);
    }
  }

  lemma SawStep(s: State, c: Agent, act: Act, a: Agent, t: Timer, op: Op)
    requires Inv(s) && Step(s, c, act).Some? && OpOf(s.pc(a)) == Some((op, t)) && op.Mod?
    ensures var p, p' := s.pc(a), Step(s, c, act).value.pc(a);
      p'.Spin? || p'.Read? || p'.Check? || p'.Locked? ==>
        || (p == Begin(op, t) && p'.saw == s.timer(t).mark)
        || ((p.Spin? || p.Read? || p.Check? || p.Locked?) && p'.saw == p.saw)
  {
    StepEffect(s, c, act);
    if c == a {
      assert Fits(a, s.pc(a));
      hide Inv, SoftirqStep;
    } else {
      hide Step, Inv;
    }
  }

  // The result of mod_timer, mod_timer_pending and timer_reduce: 1 if and only if the timer was on a
  // list when the call decided with the lock held, or was let go by the bucket comparison, having been
  // pending at the call's first look; a 0 of mod_timer_pending means that it was on no list.
  lemma ModResult(tr: seq<State>, i: nat, k: nat, a: Agent, t: Timer, op: Op) returns (j: nat)
    requires Run(tr) && InCall(tr, i, k, a, t, op) && op.Mod? && tr[k].pc(a).Done?
    ensures i <= j < k && tr[j].pc(a).Locked? && ModAnswers(tr[j], tr[j + 1], a, t, op, tr[k].pc(a).ret)
    ensures tr[k].pc(a).ret == if tr[j].timer(t).place != Nowhere || BySame(tr[j], tr[j + 1], a, t) then 1 else 0
    ensures BySame(tr[j], tr[j + 1], a, t) ==>
      exists h :: i <= h < j && tr[h].pc(a) == Begin(op, t) && tr[h].timer(t).mark
  {
    hide Run, InCall, BySame, Step;
    j := CallAnswers(tr, i, k, a, t, op);
    if BySame(tr[j], tr[j + 1], a, t) {
      SameLeaves(tr[j], tr[j + 1], a, t);
      CallPart(tr, i, j, k, a, t, op);
      var h := SawPending(tr, i, j, a, t, op);
    }
  }

  lemma CallPart(tr: seq<State>, i: nat, j: nat, k: nat, a: Agent, t: Timer, op: Op)
    requires InCall(tr, i, k, a, t, op) && i <= j <= k
    ensures InCall(tr, i, j, a, t, op)
  {
  }

  lemma SameLeaves(s: State, s': State, a: Agent, t: Timer)
    requires BySame(s, s', a, t)
    ensures s.pc(a).saw && s'.pc(a).Leave? && ResultOf(s'.pc(a)) == Some(1)
  {
  }

  // The result of del_timer: 1 if and only if the call has taken the timer off a list; a 0 means that
  // the timer was not pending at the call's first look, or on no list under the lock.
  lemma DelResult(tr: seq<State>, i: nat, k: nat, a: Agent, t: Timer) returns (j: nat)
    requires Run(tr) && InCall(tr, i, k, a, t, Del) && tr[k].pc(a).Done?
    ensures i <= j < k && DelAnswers(tr[j], tr[j + 1], a, t, tr[k].pc(a).ret)
    ensures tr[k].pc(a).ret == if tr[j].timer(t).place != Nowhere then 1 else 0
    ensures tr[j + 1].timer(t).place == Nowhere && !tr[j + 1].timer(t).mark
  {
    hide Run, InCall;
    j := CallAnswers(tr, i, k, a, t, Del);
  }

  // A timer that is gone stays so under every step, as long as whoever is in __mod_timer with it only
  // means to modify it while pending.
  lemma GoneStays(s: State, a: Agent, act: Act, t: Timer)
    requires Inv(s) && Step(s, a, act).Some? && Gone(s, t) && NoRestart(s, t)
    ensures Gone(Step(s, a, act).value, t)
  {
    assert s.pc(a).Locked? && s.pc(a).t == t && s.pc(a).op.Mod? ==>
      OpOf(s.pc(a)).value.1 == t && s.pc(a).op.pendingOnly;
    StepEffect(s, a, act);
    hide Inv, Knows, Singular, HeadsEmpty, NoRestart, OpOf;
    if s.pc(a).Locked? {
      GoneUnderLock(s, a, act, t);
      hide LockedStep, SoftirqStep;
    } else if a.Context? {
      hide LockedStep, SoftirqStep;
    } else {
      hide ContextStep;
    }
  }

  lemma GoneUnderLock(s: State, a: Agent, act: Act, t: Timer)
    requires s.pc(a).Locked? && Gone(s, t) && (s.pc(a).t == t && s.pc(a).op.Mod? ==> s.pc(a).op.pendingOnly)
    requires LockedStep(s, a, act, s.pc(a).op, s.pc(a).t, s.pc(a).saw, s.pc(a).b).Some?
    ensures Gone(LockedStep(s, a, act, s.pc(a).op, s.pc(a).t, s.pc(a).saw, s.pc(a).b).value, t)
  {
    hide Singular;
  }

  lemma {:induction false} StaysGone(tr: seq<State>, j: nat, m: nat, t: Timer)
    requires Run(tr) && j <= m < |tr| && Gone(tr[j], t)
    requires forall n :: j <= n < m ==> NoRestart(tr[n], t)
    ensures Gone(tr[m], t)
  {
    hide Run, Gone, NoRestart, Inv, Step;
    if j < m {
      StaysGone(tr, j, m - 1, t);
      RunInv(tr, m - 1);
      var c, act := StepOf(tr, m);
      GoneStays(tr[m - 1], c, act, t);
    }
  }

  // When del_timer returns 1, and from then on, the timer is on no list and on its way to none, unless
  // somebody restarts it after the step that took it off. Its handler may still be at work.
  lemma DelReturns(tr: seq<State>, i: nat, k: nat, m: nat, a: Agent, t: Timer)
    requires Run(tr) && InCall(tr, i, k, a, t, Del) && k <= m < |tr| && tr[k].pc(a) == Done(Del, t, 1)
    requires forall j :: i <= j < m && (j >= k || ResultOf(tr[j].pc(a)).Some?) ==> NoRestart(tr[j], t)
    ensures Gone(tr[m], t)
  {
    hide Run, InCall, NoRestart, Gone, OnlyChanges;
    var j := CallAnswers(tr, i, k, a, t, Del);
    StaysGone(tr, j + 1, m, t);
  }

  // ---- What becomes of a timer ----

  // From s to s' agent a takes t off its list: in a call that will say so, to carry it on or to leave
  // it off, or in the expiry loop, as the timer the base is now running.
  ghost predicate TakesOff(s: State, s': State, a: Agent, t: Timer)
  {
    || (s.pc(a).Locked? && s.pc(a).t == t && ResultOf(s'.pc(a)) == Some(1)
        && if s.pc(a).op.Mod? then Carries(s'.pc(a)) == Some(t) else s'.pc(a).Leave?)
    || (exists b :: s.timer(t).place == OnHeads(b) && a == Softirq(b.cpu) && s'.pc(a) == Taken(b, t)
          && s'.base(b).running == Some(t))
  }

  // A timer changes lists in three ways only: a context that carries it puts it in a bucket of the base
  // it has locked, the expiry of the base moves its bucket to the expired list, or it is taken off.
  lemma ListMoves(s: State, a: Agent, act: Act, t: Timer)
    requires Inv(s) && Step(s, a, act).Some?
    ensures var s' := Step(s, a, act).value; var x, x' := s.timer(t).place, s'.timer(t).place;
      x' != x ==>
        || (x == Nowhere && act.Bucket? && s.pc(a).Ready? && s.pc(a).t == t && x' == InBucket(s.pc(a).b, act.idx))
        || (x.InBucket? && act.Collect? && s.pc(a) == Expire(x.base) && x.idx in act.idxs && x' == OnHeads(x.base))
        || (x != Nowhere && x' == Nowhere && TakesOff(s, s', a, t))
  {
    assert Fits(a, s.pc(a)) && Knows(s, s.pc(a)) && ListedAt(s, t);
    hide Inv, Knows, Names, Singular;
    if a.Context? {
      hide SoftirqStep;
      if !s.pc(a).Locked? { hide LockedStep; }
    } else {
      hide ContextStep;
    }
  }

  // The expiry moves every timer of the buckets it collects.
  lemma CollectMoves(s: State, a: Agent, idxs: set<nat>, t: Timer)
    requires Inv(s) && Step(s, a, Collect(idxs)).Some?
    ensures var s' := Step(s, a, Collect(idxs)).value;
      s.pc(a).Expire? && forall i :: i in idxs && s.timer(t).place == InBucket(s.pc(a).b, i) ==>
        s'.timer(t).place == OnHeads(s.pc(a).b)
  {
    assert Fits(a, s.pc(a));
    hide Inv;
  }

  // No timer is lost: one that was on a list and no longer is was taken off in between, by a call that
  // says so or by the expiry, to be run.
  lemma {:induction false} NoneLost(tr: seq<State>, j: nat, k: nat, t: Timer) returns (m: nat, a: Agent)
    requires Run(tr) && j <= k < |tr| && tr[j].timer(t).place != Nowhere && tr[k].timer(t).place == Nowhere
    ensures j <= m < k && tr[m].timer(t).place != Nowhere && TakesOff(tr[m], tr[m + 1], a, t)
    decreases k
  {
    hide Run, Inv, Step, TakesOff;
    RunInv(tr, k - 1);
    var c, act := StepOf(tr, k);
    ListMoves(tr[k - 1], c, act, t);
    if tr[k - 1].timer(t).place == Nowhere {
      m, a := NoneLost(tr, j, k - 1, t);
    } else {
      m, a := k - 1, c;
    }
  }

  // A timer taken off to be run is the base's running timer until its handler has been called.
  lemma {:induction false} HandlerCalled(tr: seq<State>, j: nat, k: nat, a: Agent, b: BaseId, t: Timer)
    requires Run(tr) && j <= k < |tr| && tr[j].pc(a) == Taken(b, t)
    requires forall m :: j <= m <= k ==> tr[m].pc(a) != Calling(b, t)
    ensures tr[k].pc(a) == Taken(b, t) && tr[k].base(b).running == Some(t)
  {
    hide Run, Inv, Step;
    RunInv(tr, k);
    if j < k {
      HandlerCalled(tr, j, k - 1, a, b, t);
      RunInv(tr, k - 1);
      var c, act := StepOf(tr, k);
      TakenStep(tr[k - 1], c, act, a, b, t);
    }
    assert Inv(tr[k]) ==> Knows(tr[k], tr[k].pc(a)) by { InvKnows(tr[k], a); }
  }

  lemma InvKnows(s: State, a: Agent)
    ensures Inv(s) ==> Knows(s, s.pc(a))
  {
  }

  lemma TakenStep(s: State, c: Agent, act: Act, a: Agent, b: BaseId, t: Timer)
    requires Inv(s) && Step(s, c, act).Some? && s.pc(a) == Taken(b, t)
    ensures var p := Step(s, c, act).value.pc(a); p == Taken(b, t) || p == Calling(b, t)
  {
    StepEffect(s, c, act);
    assert Fits(a, s.pc(a));
    hide Inv;
  }

  // A context that carries a timer to another base gets it there: from the choice of the target on, it
  // is headed for that base, or stays with the old one while that runs the timer.
  lemma {:induction false} TargetReached(tr: seq<State>, j: nat, k: nat, a: Agent, t: Timer, cpu: nat)
    requires Run(tr) && j < k < |tr| && tr[j].pc(a).Detached? && tr[j].pc(a).t == t
    requires Step(tr[j], a, Target(cpu)) == Some(tr[j + 1])
    requires forall m :: j <= m <= k ==> Carries(tr[m].pc(a)) == Some(t)
    ensures !tr[k].pc(a).Detached?
    ensures HeadsFor(tr[k].pc(a)) == Some(if tr[j].base(tr[j].pc(a).b).running == Some(t) then tr[j].pc(a).b
                                          else BaseId(cpu, tr[j].timer(t).flags.deferrable))
    decreases k
  {
    hide Run, Inv;
    if k == j + 1 {
      RunInv(tr, j);
      InvKnows(tr[j], a);
    } else {
      TargetReached(tr, j, k - 1, a, t, cpu);
      hide Step;
      RunInv(tr, k - 1);
      var c, act := StepOf(tr, k);
      HeadingStays(tr[k - 1], c, act, a, t);
    }
  }

  function HeadsFor(p: Pc): Option<BaseId>
  {
    match p
    case Moving(_, _, _, n, _) => Some(n)
    case Flagged(_, _, _, n, _) => Some(n)
    case Between(_, _, n, _) => Some(n)
    case Arrived(_, _, n, _) => Some(n)
    case Ready(_, _, b, _) => Some(b)
    case _ => None
  }

  lemma HeadingStays(s: State, c: Agent, act: Act, a: Agent, t: Timer)
    requires Inv(s) && Step(s, c, act).Some? && Carries(s.pc(a)) == Some(t) && !s.pc(a).Detached?
    requires Carries(Step(s, c, act).value.pc(a)) == Some(t)
    ensures var p' := Step(s, c, act).value.pc(a); !p'.Detached? && HeadsFor(p') == HeadsFor(s.pc(a))
  {
    StepEffect(s, c, act);
    assert Fits(a, s.pc(a));
    hide Inv, SoftirqStep, LockedStep;
  }

  // ---- A restart that is lost ----

  // The agents other than a stand where they stood, and t is the only timer on a list.
  ghost predicate Alone(s0: State, s: State, a: Agent, t: Timer)
  {
    && (forall c :: c != a ==> s.pc(c) == s0.pc(c))
    && (forall u :: u != t ==> s.timer(u).place == Nowhere)
  }

  // Some run ends in s.
  ghost predicate Reached(s: State)
  {
    exists tr :: Run(tr) && tr[|tr| - 1] == s
  }

  lemma Then(s: State, a: Agent, act: Act) returns (s': State)
    requires Reached(s) && Step(s, a, act).Some?
    ensures Step(s, a, act) == Some(s') && Reached(s')
  {
    hide Step, Init;
    var tr :| Run(tr) && tr[|tr| - 1] == s;
    s' := Step(s, a, act).value;
    var tr' := tr + [s'];
    forall i | 0 <= i < |tr'| - 1 ensures Next(tr'[i], tr'[i + 1]) {
      if i < |tr| - 1 { assert Next(tr[i], tr[i + 1]); }
    }
    assert Run(tr') && tr'[|tr'| - 1] == s';
  }

  // mod_timer up to the loop of lock_timer_base.
  lemma ModCalls(s: State, a: Agent, t: Timer) returns (s': State)
    requires Reached(s) && a.Context? && Alone(s, s, a, t) && s.pc(a) == Idle
    ensures Reached(s') && Alone(s, s', a, t) && s'.pc(a) == Spin(Mod(false, false), t, s.timer(t).mark)
    ensures s'.timer == s.timer && s'.base == s.base
  {
    hide Reached;
    s' := Then(s, a, Call(Mod(false, false), t));
    s' := Then(s', a, Go);
  }

  // From there to the lock.
  lemma ModLocks(s: State, a: Agent, t: Timer, b: BaseId, saw: bool) returns (s': State)
    requires Reached(s) && a.Context? && Alone(s, s, a, t)
    requires s.pc(a) == Spin(Mod(false, false), t, saw)
    requires Names(s, t, b) && s.base(b).lock == None
    ensures Reached(s') && Alone(s, s', a, t) && s'.pc(a) == Locked(Mod(false, false), t, saw, b)
    ensures s'.timer == s.timer && s'.base(b) == s.base(b).(lock := Some(a))
  {
    hide Reached;
    s' := Then(s, a, Go);
    s' := Then(s', a, Go);
    s' := Then(s', a, Go);
  }

  lemma ModIdles(s: State, a: Agent, t: Timer) returns (s': State)
    requires Reached(s) && a.Context? && Alone(s, s, a, t) && s.pc(a).Leave? && s.pc(a).op.Mod?
    ensures Reached(s') && Alone(s, s', a, t) && s'.pc(a) == Idle && s'.timer == s.timer
    ensures s'.base(s.pc(a).b) == s.base(s.pc(a).b).(lock := None)
  {
    hide Reached, SoftirqStep;
    s' := Then(s, a, Go);
    s' := Then(s', a, Go);
  }

  // A new timer is enqueued in bucket i of the base its flags name.
  lemma ModQueues(s: State, a: Agent, t: Timer, b: BaseId, i: nat) returns (s': State)
    requires Reached(s) && a.Context? && Alone(s, s, a, t) && s.pc(a) == Locked(Mod(false, false), t, false, b)
    requires Names(s, t, b) && s.timer(t).place == Nowhere && !s.timer(t).mark
    ensures Reached(s') && Alone(s, s', a, t) && s'.pc(a) == Idle && Names(s', t, b)
    ensures s'.base(b) == s.base(b).(lock := None, pending := s.base(b).pending + {i})
    ensures s'.timer(t).place == InBucket(b, i) && s'.timer(t).mark && s'.timer(t).flags.idx == i
  {
    hide Reached, SoftirqStep;
    s' := Then(s, a, Go);
    s' := Then(s', a, Target(b.cpu));
    s' := Then(s', a, Bucket(i));
    s' := ModIdles(s', a, t);
  }

  // The softirq collects the bucket and takes the timer off the list.
  lemma ExpiryTakes(s: State, q: Agent, t: Timer, b: BaseId, i: nat) returns (s': State)
    requires Reached(s) && q == Softirq(b.cpu) && Alone(s, s, q, t) && s.pc(q) == Idle
    requires Names(s, t, b) && s.base(b).lock == None && s.timer(t).place == InBucket(b, i)
    ensures Reached(s') && Alone(s, s', q, t) && s'.pc(q) == Taken(b, t)
    ensures s'.timer(t) == s.timer(t).(place := Nowhere, mark := false)
    ensures s'.base(b).lock == Some(q)
  {
    hide Reached, ContextStep;
    s' := Then(s, q, RunTimers(b));
    s' := Then(s', q, Go);
    s' := Then(s', q, Collect({i}));
    s' := Then(s', q, Take(t));
  }

  // It runs the handler.
  lemma HandlerRuns(s: State, q: Agent, t: Timer, b: BaseId) returns (s': State)
    requires Reached(s) && q == Softirq(b.cpu) && Alone(s, s, q, t) && s.pc(q) == Taken(b, t)
    ensures Reached(s') && Alone(s, s', q, t) && s'.pc(q) == Wait(b) && s'.timer == s.timer
    ensures s'.base(b).lock == None
  {
    hide Reached, ContextStep;
    s' := Then(s, q, Go);
    s' := Then(s', q, Go);
    s' := Then(s', q, Go);
  }

  // It finds nothing more to do.
  lemma ExpiryEnds(s: State, q: Agent, t: Timer, b: BaseId) returns (s': State)
    requires Reached(s) && q == Softirq(b.cpu) && Alone(s, s, q, t) && s.pc(q) == Wait(b)
    requires s.timer(t).place == Nowhere && s.base(b).lock == None
    ensures Reached(s') && Alone(s, s', q, t) && s'.pc(q) == Idle && s'.timer == s.timer
    ensures s'.base(b).lock == None
  {
    hide Reached, ContextStep;
    s' := Then(s, q, Go);
    s' := Then(s', q, Stop);
  }

  // The bucket of a timer seen pending is the one its flags still show.
  lemma ModLeaves(s: State, a: Agent, t: Timer, b: BaseId, i: nat) returns (s': State)
    requires Reached(s) && a.Context? && Alone(s, s, a, t) && s.pc(a) == Locked(Mod(false, false), t, true, b)
    requires s.timer(t).flags.idx == i
    ensures Reached(s') && Alone(s, s', a, t) && s'.pc(a) == Done(Mod(false, false), t, 1) && s'.timer == s.timer
  {
    hide Reached;
    s' := Then(s, a, Same(i));
    s' := Then(s', a, Go);
  }

  // mod_timer is about to return 1, the timer is quiet with bucket i still in its flags, and nobody
  // else is under way.
  ghost predicate Lost(s: State, t: Timer, i: nat)
  {
    && s.pc(Context(0)) == Done(Mod(false, false), t, 1)
    && !s.timer(t).mark && s.timer(t).flags.idx == i && Quiet(s, t)
    && forall c :: c != Context(0) ==> s.pc(c) == Idle
  }

  // A restart can be lost: for every bucket there is a run in which the timer is queued there and
  // fires between the moment mod_timer finds it pending and the moment it has the lock; the new
  // bucket has the old one's index, and mod_timer returns 1 with the timer on no list and nobody
  // else under way.
  lemma LostInBucket(s0: State, t: Timer, i: nat)
    requires Init(s0)
    ensures exists s :: Reached(s) && Lost(s, t, i)
  {
    var a := Context(0);
    var b := BaseOf(s0.timer(t).flags);
    assert Run([s0]) && [s0][|[s0]| - 1] == s0;
    hide Reached, Run, Step, Quiet;
    var s := ModCalls(s0, a, t);
    s := ModLocks(s, a, t, b, false);
    s := ModQueues(s, a, t, b, i);
    s := ModCalls(s, a, t);
    s := LostOnce(s, t, b, i);
  }

  // calc_wheel_index does give such buckets. A timer with expiry e, enqueued at base clock clk within
  // levels 0 to 7, gets index i; the base collects it at its due clock, steps past that, and there
  // the same index is what a restart with expiry NextSame gets, 63 granules on. So that restart is
  // lost in a run of the protocol, for every e and clk.
  lemma LostRestart(s0: State, t: Timer, e: nat, clk: nat)
    requires Init(s0) && clk <= e < clk + 132120576
    ensures var l := KernelWheel.LevelOf(e - clk);
      var due, i := KernelWheel.Due(e, l), KernelWheel.CalcWheelIndex(e, clk);
      && KernelWheel.FirstLook(e, clk) == due
      && KernelWheel.CalcWheelIndex(KernelWheel.NextSame(e, l), due + 1) == i
      && due + 1 <= KernelWheel.NextSame(e, l)
      && exists s :: Reached(s) && Lost(s, t, i)
  {
    var l := KernelWheel.LevelOf(e - clk);
    KernelWheel.Lateness(e, clk);
    KernelWheel.IndexIs(e, clk);
    KernelWheel.SameIndexAgain(e, l);
    KernelWheel.NextSameDown(e, l);
    LostInBucket(s0, t, KernelWheel.CalcWheelIndex(e, clk));
  }

  // One such case in numbers: enqueued for tick 10 at base clock 0, collected at 11, restarted at base
  // clock 12 for tick 74.
  lemma LostExample()
    ensures KernelWheel.CalcWheelIndex(10, 0) == 11 && KernelWheel.FirstLook(10, 0) == 11
    ensures KernelWheel.CalcWheelIndex(74, 12) == 11
  {
    KernelWheel.SameIndexAgain(10, 0);
    KernelWheel.Lateness(10, 0);
  }

  lemma LostOnce(s: State, t: Timer, b: BaseId, i: nat) returns (s': State)
    requires Reached(s) && Alone(s, s, Context(0), t) && s.pc(Context(0)) == Spin(Mod(false, false), t, true)
    requires forall c :: c != Context(0) ==> s.pc(c) == Idle
    requires Names(s, t, b) && s.base(b).lock == None
    requires s.timer(t).place == InBucket(b, i) && s.timer(t).flags.idx == i
    ensures Reached(s') && Lost(s', t, i)
  {
    var a, q := Context(0), Softirq(b.cpu);
    hide Reached, Step;
    s' := ExpiryTakes(s, q, t, b, i);
    s' := HandlerRuns(s', q, t, b);
    s' := ExpiryEnds(s', q, t, b);
    s' := ModLocks(s', a, t, b, true);
    s' := ModLeaves(s', a, t, b, i);
  }
}
