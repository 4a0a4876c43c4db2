/** What the conservation laws give the users of `RefTlc` and `RefSepGeneric`. */
module RefTheorems {
  import opened Deferred
  import opened RefProtocol
  import opened RefSafety

  // ---------------------------------------------------------------- one step

  /** How far an object is in its life: not created, data there, data dropped, freed. */
  function Stage(s: State, o: nat): nat {
    if o >= |s.objs| then 0
    else match s.objs[o].phase case Intact => 1 case Dropped => 2 case Freed => 3
  }

  /** The life of an object goes one way, one stage at a time, and a stage is left only
      when nobody can notice: the data goes when no strong handle is left anywhere, the
      memory goes when no handle of any kind is left. */
  ghost predicate LivesOn(s: State, s': State, o: nat) {
    && Stage(s, o) <= Stage(s', o) <= Stage(s, o) + 1
    && (Stage(s, o) == 1 && Stage(s', o) == 2 ==> LiveHandles(s, o) == 0)
    && (Stage(s, o) == 2 && Stage(s', o) == 3 ==> LiveHandles(s, o) == Total(s.threads, WeakHandle(o)) == 0)
    && (o < |s.objs| && s.objs[o].strong == 0 ==> o < |s'.objs| && s'.objs[o].strong == 0)
  }

  /** A step that changes no phase and takes no counter up from zero. */
  lemma SamePhaseLivesOn(s: State, s': State, o: nat, p: nat, x: Obj)
    requires p < |s.objs| && s'.objs == s.objs[p := x] && x.phase == s.objs[p].phase
    requires s.objs[p].strong == 0 ==> x.strong == 0
    ensures LivesOn(s, s', o)
  {
  }

  lemma NextStageLivesOn(s: State, s': State, o: nat, p: nat, x: Obj)
    requires p < |s.objs| && s'.objs == s.objs[p := x] && x.strong == s.objs[p].strong
    requires (s.objs[p].phase, x.phase) in {(Intact, Dropped), (Dropped, Freed)}
    requires LiveHandles(s, p) == 0 && (x.phase == Freed ==> Total(s.threads, WeakHandle(p)) == 0)
    ensures LivesOn(s, s', o)
  {
  }

  lemma ReleaseLivesOn(s: State, t: nat, th: Thread, p: nat, o: nat)
    requires t < |s.threads| && p < |s.objs| && WeakRelease(s, t, th, p).Next?
    ensures LivesOn(s, WeakRelease(s, t, th, p).s, o)
  {
    SamePhaseLivesOn(s, WeakRelease(s, t, th, p).s, o, p, s.objs[p].(weak := s.objs[p].weak - 1));
  }

  lemma ApplyLivesOn(s: State, t: nat, order: seq<Addr>, spurious: bool, o: nat)
    requires Enabled(s, t, Tick(order, spurious)) && DoTick(s, t, order, spurious).Next?
    requires s.threads[t].stack.top.Apply?
    ensures LivesOn(s, DoTick(s, t, order, spurious).s, o)
  {
    var th := s.threads[t];
    if th.stack.top.todo != [] {
      var p := s.mem[th.stack.top.todo[0].addr];
      SamePhaseLivesOn(s, DoTick(s, t, order, spurious).s, o, p, AfterRelease(th, s.objs[p]));
    }
  }

  lemma DoomedLivesOn(s: State, t: nat, order: seq<Addr>, spurious: bool, o: nat)
    requires Inv(s) && Enabled(s, t, Tick(order, spurious)) && DoTick(s, t, order, spurious).Next?
    requires s.threads[t].stack.top.Doomed?
    ensures LivesOn(s, DoTick(s, t, order, spurious).s, o)
  {
    var p := s.threads[t].stack.top.obj;
    TotalSet(s.threads, t, s.threads[t], ToDrop(p));
    BalanceOf(s, p);
    NextStageLivesOn(s, DoTick(s, t, order, spurious).s, o, p, s.objs[p].(phase := Dropped));
  }

  lemma KidsLivesOn(s: State, t: nat, order: seq<Addr>, spurious: bool, o: nat)
    requires Enabled(s, t, Tick(order, spurious)) && DoTick(s, t, order, spurious).Next?
    requires s.threads[t].stack.top.Kids?
    ensures LivesOn(s, DoTick(s, t, order, spurious).s, o)
  {
    var th := s.threads[t];
    if th.stack.top.rest == [] {
      ReleaseLivesOn(s, t, th.(stack := th.stack.below), th.stack.top.obj, o);
    }
  }

  lemma DeallocLivesOn(s: State, t: nat, order: seq<Addr>, spurious: bool, o: nat)
    requires Inv(s) && Enabled(s, t, Tick(order, spurious)) && DoTick(s, t, order, spurious).Next?
    requires s.threads[t].stack.top.Dealloc?
    ensures LivesOn(s, DoTick(s, t, order, spurious).s, o)
  {
    var p := s.threads[t].stack.top.obj;
    TotalSet(s.threads, t, s.threads[t], ToFree(p));
    BalanceOf(s, p);
    NextStageLivesOn(s, DoTick(s, t, order, spurious).s, o, p, s.objs[p].(phase := Freed));
  }

  lemma UpgradeLivesOn(s: State, t: nat, order: seq<Addr>, spurious: bool, o: nat)
    requires Inv(s) && Enabled(s, t, Tick(order, spurious)) && DoTick(s, t, order, spurious).Next?
    requires s.threads[t].stack.top.Upgrade?
    ensures LivesOn(s, DoTick(s, t, order, spurious).s, o)
  {
    UpgradeTarget(s, t);
    ExchangeLivesOn(s, t, order, spurious, o);
  }

  lemma ExchangeLivesOn(s: State, t: nat, order: seq<Addr>, spurious: bool, o: nat)
    requires Enabled(s, t, Tick(order, spurious)) && DoTick(s, t, order, spurious).Next?
    requires s.threads[t].stack.top.Upgrade? && s.threads[t].stack.top.seen > 0
    ensures LivesOn(s, DoTick(s, t, order, spurious).s, o)
  {
    var f := s.threads[t].stack.top;
    var x := s.objs[f.obj];
    if x.strong == f.seen && !spurious {
      SamePhaseLivesOn(s, DoTick(s, t, order, spurious).s, o, f.obj, x.(strong := x.strong + 1));
    }
  }

  lemma TickLivesOn(s: State, t: nat, order: seq<Addr>, spurious: bool, o: nat)
    requires Inv(s) && Enabled(s, t, Tick(order, spurious)) && DoTick(s, t, order, spurious).Next?
    ensures LivesOn(s, DoTick(s, t, order, spurious).s, o)
  {
    match s.threads[t].stack.top
    case Apply(_) => ApplyLivesOn(s, t, order, spurious, o);
    case Doomed(_) => DoomedLivesOn(s, t, order, spurious, o);
    case Kids(_, _) => KidsLivesOn(s, t, order, spurious, o);
    case Dealloc(_) => DeallocLivesOn(s, t, order, spurious, o);
    case Upgrade(_, _, _) => UpgradeLivesOn(s, t, order, spurious, o);
  }

  lemma CloneLivesOn(s: State, t: nat, p: nat, o: nat)
    requires t < |s.threads| && p < |s.objs| && s.objs[p].strong > 0 && DoClone(s, t, p).Next?
    ensures LivesOn(s, DoClone(s, t, p).s, o)
  {
    if !(s.threads[t].tls && s.objs[p].addr in s.threads[t].buf.entries) {
      SamePhaseLivesOn(s, DoClone(s, t, p).s, o, p, s.objs[p].(strong := s.objs[p].strong + 1));
    }
  }

  lemma StepRuns(s: State, t: nat, act: Action)
    requires Inv(s) && Enabled(s, t, act)
    ensures Do(s, t, act).Next?
  {
    StepSafe(s, t, act);
  }

  lemma BorrowedIsCounted(s: State, p: nat)
    requires Inv(s) && Borrowable(s, p) && p < |s.objs|
    ensures s.objs[p].strong > 0
  {
    BorrowableIsLive(s, p);
    HandleMeansIntact(s, p);
  }

  lemma OtherLivesOn(s: State, t: nat, act: Action, o: nat)
    requires Enabled(s, t, act) && Do(s, t, act).Next? && !act.Tick? && !act.Clone?
    ensures LivesOn(s, Do(s, t, act).s, o)
  {
    match act
    case Downgrade(p) =>
      SamePhaseLivesOn(s, Do(s, t, act).s, o, p, s.objs[p].(weak := s.objs[p].weak + 1));
    case DropWeak(p) =>
      ReleaseLivesOn(s, t, s.threads[t].(weak := s.threads[t].weak - multiset{p}), p, o);
    case _ =>
  }

  lemma StepLivesOn(s: State, t: nat, act: Action, o: nat)
    requires Inv(s) && Enabled(s, t, act)
    ensures Do(s, t, act).Next? && LivesOn(s, Do(s, t, act).s, o)
  {
    StepRuns(s, t, act);
    if act.Tick? {
      TickLivesOn(s, t, act.order, act.spurious, o);
    } else if act.Clone? {
      BorrowedIsCounted(s, act.o);
      CloneLivesOn(s, t, act.o, o);
    } else {
      OtherLivesOn(s, t, act, o);
    }
  }

  // ---------------------------------------------------------------- whole runs

  /** How often the steps of a run take object `o` from one stage to the next. */
  function Entered(s: State, schedule: seq<(nat, Action)>, o: nat, stage: nat): nat
    decreases |schedule|
  {
    if schedule == [] then 0
    else if Enabled(s, schedule[0].0, schedule[0].1) then
      match Do(s, schedule[0].0, schedule[0].1)
      case Next(s') =>
        (if Stage(s, o) != stage && Stage(s', o) == stage then 1 else 0) + Entered(s', schedule[1..], o, stage)
      case Fault => 0
    else Entered(s, schedule[1..], o, stage)
  }

  /** Over any run, the data of an object is dropped once if it is gone at the end and
      never otherwise, and likewise for its memory. */
  lemma {:induction false} EnteredOnce(s: State, schedule: seq<(nat, Action)>, o: nat, stage: nat)
    requires Inv(s)
    ensures Run(s, schedule).Next?
    ensures Stage(s, o) <= Stage(Run(s, schedule).s, o)
    ensures Entered(s, schedule, o, stage) == if Stage(s, o) < stage <= Stage(Run(s, schedule).s, o) then 1 else 0
    decreases |schedule|
  {
    RunSafe(s, schedule);
    if schedule != [] {
      var (t, act) := schedule[0];
      if Enabled(s, t, act) {
        StepSafe(s, t, act);
        StepLivesOn(s, t, act, o);
        EnteredOnce(Do(s, t, act).s, schedule[1..], o, stage);
      } else {
        EnteredOnce(s, schedule[1..], o, stage);
      }
    }
  }

  /** A weak handle that failed to upgrade once fails for ever. */
  lemma {:induction false} DeadStaysDead(s: State, schedule: seq<(nat, Action)>, o: nat)
    requires Inv(s) && o < |s.objs| && s.objs[o].strong == 0
    ensures Run(s, schedule).Next?
    ensures o < |Run(s, schedule).s.objs| && Run(s, schedule).s.objs[o].strong == 0
    decreases |schedule|
  {
    if schedule != [] {
      var (t, act) := schedule[0];
      if Enabled(s, t, act) {
        StepSafe(s, t, act);
        StepLivesOn(s, t, act, o);
        DeadStaysDead(Do(s, t, act).s, schedule[1..], o);
      } else {
        DeadStaysDead(s, schedule[1..], o);
      }
    }
  }

  /** Both counters are exact: the strong count is the strong handles in threads and in data
      that is still there, plus the decrements deferred or drained but not applied; the weak
      count is the weak handles, plus one until the strong side has given up its share. */
  ghost predicate CountsExact(s: State) {
    forall o :: 0 <= o < |s.objs| && s.objs[o].phase != Freed ==>
      && s.objs[o].strong == LiveHandles(s, o) + Total(s.threads, Owed(s.objs[o].addr))
      && s.objs[o].weak == Total(s.threads, WeakHandle(o)) + if ShareHeld(s, o) then 1 else 0
  }

  /** The strong side has not given up its share of the weak count. */
  predicate ShareHeld(s: State, o: nat)
    requires o < |s.objs|
  {
    s.objs[o].strong > 0 || Total(s.threads, ToDrop(o)) > 0 || Total(s.threads, Share(o)) > 0
  }

  /** A strong handle is to data that is still there, a weak handle to memory that is. */
  ghost predicate HandlesValid(s: State) {
    && (forall o: nat :: LiveHandles(s, o) > 0 ==> Stage(s, o) == 1 && s.objs[o].strong > 0)
    && (forall o: nat :: Total(s.threads, WeakHandle(o)) > 0 ==> Stage(s, o) in {1, 2} && s.objs[o].weak > 0)
  }

  lemma InvMeaning(s: State)
    requires Inv(s)
    ensures CountsExact(s) && HandlesValid(s)
  {
    forall o | 0 <= o < |s.objs| && s.objs[o].phase != Freed
      ensures s.objs[o].strong == LiveHandles(s, o) + Total(s.threads, Owed(s.objs[o].addr))
      ensures s.objs[o].weak == Total(s.threads, WeakHandle(o)) + if ShareHeld(s, o) then 1 else 0
    {
      assert Conserved(s, o);
    }
    forall o: nat | LiveHandles(s, o) > 0 ensures Stage(s, o) == 1 && s.objs[o].strong > 0 {
      HandleMeansIntact(s, o);
    }
    forall o: nat | Total(s.threads, WeakHandle(o)) > 0 ensures Stage(s, o) in {1, 2} && s.objs[o].weak > 0 {
      assert o >= |s.objs| ==> Unborn(s, o);
      assert Conserved(s, o);
    }
  }

  /** Main theorem. At every point of every run no step has faulted, both counters are exact,
      every handle anybody can use is valid, and every buffer respects the retention bounds. */
  lemma Conservation(tls: seq<bool>, schedule: seq<(nat, Action)>)
    ensures Run(Init(tls), schedule).Next?
    ensures var s := Run(Init(tls), schedule).s;
      && CountsExact(s) && HandlesValid(s)
      && (forall t :: 0 <= t < |s.threads| ==>
            Sum(s.threads[t].buf.entries) <= s.threads[t].buf.ops < 4096 && |s.threads[t].buf.entries| < 1024)
  {
    InitInv(tls);
    RunSafe(Init(tls), schedule);
    var s := Run(Init(tls), schedule).s;
    InvMeaning(s);
    forall t | 0 <= t < |s.threads|
      ensures Sum(s.threads[t].buf.entries) <= s.threads[t].buf.ops < 4096 && |s.threads[t].buf.entries| < 1024
    {
      ThreadOf(s, t);
    }
  }

  /** What a step of an upgrade answers. The step that ends it hands out a handle if the data
      is alive at that moment, and none if the strong count is zero; a step that does not end
      it changes no counter and hands out nothing. */
  predicate Answered(s: State, s': State, t: nat, o: nat)
    requires o < |s.objs| && t < |s.threads|
  {
    && t < |s'.threads| && |s'.objs| == |s.objs|
    && var th, th' := s.threads[t], s'.threads[t];
      if th'.stack.Push? && th'.stack.top.Upgrade? then
        th'.strong == th.strong && s'.objs == s.objs
      else if s.objs[o].strong > 0 then
        th'.strong == th.strong + multiset{o} && s.objs[o].phase == Intact && s'.objs[o].strong > 0
      else
        th'.strong == th.strong && s'.objs == s.objs
  }

  lemma CountedIsIntact(s: State, o: nat)
    requires Inv(s) && o < |s.objs| && s.objs[o].strong > 0
    ensures s.objs[o].phase == Intact
  {
    assert Conserved(s, o);
  }

  lemma BeginAnswers(s: State, t: nat, o: nat, lender: nat)
    requires Inv(s) && Enabled(s, t, BeginUpgrade(o, lender))
    ensures o < |s.objs| && Do(s, t, BeginUpgrade(o, lender)).Next?
    ensures Answered(s, Do(s, t, BeginUpgrade(o, lender)).s, t, o)
  {
    WeakMeansAllocated(s, lender, o);
    if s.objs[o].strong > 0 { CountedIsIntact(s, o); }
    if s.objs[o].addr in s.threads[t].buf.entries { BufferedMeansIntact(s, t, o); }
  }

  lemma LoopAnswers(s: State, t: nat, order: seq<Addr>, spurious: bool)
    requires Inv(s) && Enabled(s, t, Tick(order, spurious)) && s.threads[t].stack.top.Upgrade?
    ensures s.threads[t].stack.top.obj < |s.objs| && DoTick(s, t, order, spurious).Next?
    ensures Answered(s, DoTick(s, t, order, spurious).s, t, s.threads[t].stack.top.obj)
  {
    var o := s.threads[t].stack.top.obj;
    UpgradeTarget(s, t);
    ThreadOf(s, t);
    if s.objs[o].strong > 0 { CountedIsIntact(s, o); }
  }

  // ---------------------------------------------------------------- cascades end

  function Intacts(objs: seq<Obj>): nat {
    if objs == [] then 0 else (if objs[0].phase == Intact then 1 else 0) + Intacts(objs[1..])
  }

  lemma {:induction false} IntactsSet(objs: seq<Obj>, i: nat, x: Obj)
    requires i < |objs|
    ensures Intacts(objs[i := x]) ==
      Intacts(objs) - (if objs[i].phase == Intact then 1 else 0) + (if x.phase == Intact then 1 else 0)
  {
    if i == 0 {
      assert objs[i := x][1..] == objs[1..];
    } else {
      assert objs[i := x][1..] == objs[1..][i - 1 := x];
      IntactsSet(objs[1..], i - 1, x);
    }
  }

  function FrameWork(f: Frame): nat {
    match f
    case Apply(todo) => 3 * |todo| + 1
    case Doomed(_) => 2
    case Kids(_, rest) => 5 * |rest| + 2
    case Dealloc(_) => 1
    case Upgrade(_, _, _) => 0
  }

  function StackWork(st: Stack): nat {
    match st case Empty => 0 case Push(f, below) => FrameWork(f) + StackWork(below)
  }

  /** Work a thread has in front of it while no more data is dropped. */
  function Work(th: Thread): nat {
    StackWork(th.stack) + 4 * |th.buf.entries|
  }

  /** A thread inside a drop: the top of its stack is not an upgrade attempt. */
  predicate Dropping(s: State, t: nat) {
    t < |s.threads| && s.threads[t].stack.Push? && !s.threads[t].stack.top.Upgrade?
  }

  function AsSet(order: seq<Addr>): set<Addr> {
    set a | a in order
  }

  lemma DrainedLength(m: map<Addr, Entry>, order: seq<Addr>)
    requires IsOrder(order, m)
    ensures |order| == |m|
  {
    assert AsSet(order) == m.Keys;
    DistinctSize(order);
  }

  lemma {:induction false} DistinctSize(order: seq<Addr>)
    requires forall i, j :: 0 <= i < j < |order| ==> order[i] != order[j]
    ensures |AsSet(order)| == |order|
  {
    if order != [] {
      DistinctSize(order[1..]);
      assert AsSet(order) == {order[0]} + AsSet(order[1..]);
    }
  }

  lemma DropHandleWork(th: Thread, x: Obj, order: seq<Addr>)
    requires FlushOrder(th, x, order)
    ensures Work(DropHandle(th, x, order)) <= Work(th) + 4
  {
    var b := Counted(th.buf, x.addr, x.ty);
    assert b.entries.Keys == th.buf.entries.Keys + {x.addr};
    assert |b.entries| == |b.entries.Keys| <= |th.buf.entries.Keys| + 1;
    if th.tls && MustFlush(b) {
      DrainedEntries(b.entries, order);
      DrainedLength(b.entries, order);
      assert |b.entries| >= 1 by { assert x.addr in b.entries; }
    }
  }

  ghost predicate Progress(s: State, s': State, t: nat) {
    && |s'.threads| == |s.threads| && t < |s.threads|
    && (Intacts(s'.objs) < Intacts(s.objs)
        || (Intacts(s'.objs) == Intacts(s.objs) && Work(s'.threads[t]) < Work(s.threads[t])))
  }

  lemma ReleaseProgress(s: State, t: nat, th: Thread, o: nat)
    requires t < |s.threads| && o < |s.objs| && WeakRelease(s, t, th, o).Next?
    requires Work(th) + 1 < Work(s.threads[t])
    ensures Progress(s, WeakRelease(s, t, th, o).s, t)
  {
    IntactsSet(s.objs, o, s.objs[o].(weak := s.objs[o].weak - 1));
  }

  lemma KidsProgress(s: State, t: nat, order: seq<Addr>, spurious: bool)
    requires Enabled(s, t, Tick(order, spurious)) && DoTick(s, t, order, spurious).Next?
    requires s.threads[t].stack.top.Kids?
    ensures Progress(s, DoTick(s, t, order, spurious).s, t)
  {
    var th := s.threads[t];
    var f := th.stack.top;
    if f.rest == [] {
      ReleaseProgress(s, t, th.(stack := th.stack.below), f.obj);
    } else {
      DropHandleWork(th.(stack := Push(Kids(f.obj, f.rest[1..]), th.stack.below)), s.objs[f.rest[0]], order);
    }
  }

  lemma ApplyProgress(s: State, t: nat, order: seq<Addr>, spurious: bool)
    requires Enabled(s, t, Tick(order, spurious)) && DoTick(s, t, order, spurious).Next?
    requires s.threads[t].stack.top.Apply?
    ensures Progress(s, DoTick(s, t, order, spurious).s, t)
  {
    var th := s.threads[t];
    if th.stack.top.todo != [] {
      var o := s.mem[th.stack.top.todo[0].addr];
      IntactsSet(s.objs, o, AfterRelease(th, s.objs[o]));
      var st := Push(Apply(th.stack.top.todo[1..]), th.stack.below);
      assert StackWork(st) == StackWork(th.stack) - 3;
      assert StackWork(AfterApply(th, o, s.objs[o]).stack) <= StackWork(st) + 2;
    }
  }

  lemma PhaseProgress(s: State, t: nat, order: seq<Addr>, spurious: bool)
    requires Enabled(s, t, Tick(order, spurious)) && DoTick(s, t, order, spurious).Next?
    requires s.threads[t].stack.top.Doomed? || s.threads[t].stack.top.Dealloc?
    ensures Progress(s, DoTick(s, t, order, spurious).s, t)
  {
    var o := s.threads[t].stack.top.obj;
    IntactsSet(s.objs, o, s.objs[o].(phase := if s.threads[t].stack.top.Doomed? then Dropped else Freed));
  }

  lemma StaysDropping(s: State, t: nat, order: seq<Addr>, spurious: bool)
    requires Inv(s) && Dropping(s, t) && Enabled(s, t, Tick(order, spurious)) && DoTick(s, t, order, spurious).Next?
    ensures var s' := DoTick(s, t, order, spurious).s;
      |s'.threads| == |s.threads| && (s'.threads[t].stack.Push? ==> Dropping(s', t))
  {
    ThreadOf(s, t);
  }

  /** Every step inside a drop either drops some object's data for good or leaves its thread
      less to do, whatever drain order is used. */
  lemma TickProgress(s: State, t: nat, order: seq<Addr>, spurious: bool)
    requires Inv(s) && Dropping(s, t) && Enabled(s, t, Tick(order, spurious))
    ensures DoTick(s, t, order, spurious).Next?
    ensures var s' := DoTick(s, t, order, spurious).s;
      Inv(s') && Progress(s, s', t) && (s'.threads[t].stack.Push? ==> Dropping(s', t))
  {
    TickGood(s, t, order, spurious);
    StaysDropping(s, t, order, spurious);
    match s.threads[t].stack.top
    case Apply(_) => ApplyProgress(s, t, order, spurious);
    case Kids(_, _) => KidsProgress(s, t, order, spurious);
    case Doomed(_) => PhaseProgress(s, t, order, spurious);
    case Dealloc(_) => PhaseProgress(s, t, order, spurious);
  }

  /** Some order for the next drain. */
  ghost function NextOrder(s: State, t: nat, drain: map<Addr, Entry> -> seq<Addr>): seq<Addr>
    requires Dropping(s, t)
  {
    var th := s.threads[t];
    match th.stack.top
    case Kids(_, rest) =>
      if rest != [] && rest[0] < |s.objs| then
        drain(Counted(th.buf, s.objs[rest[0]].addr, s.objs[rest[0]].ty).entries)
      else []
    case _ => []
  }

  /** Finishing a drop: thread `t` alone, with any way `drain` for its map to be drained.
      That this function is accepted shows that re-entrant cascades end. */
  ghost function Settle(s: State, t: nat, drain: map<Addr, Entry> -> seq<Addr>): (s': State)
    requires Inv(s) && t < |s.threads| && (s.threads[t].stack.Push? ==> Dropping(s, t))
    requires forall m :: IsOrder(drain(m), m)
    ensures Inv(s') && |s'.threads| == |s.threads| && s'.threads[t].stack == Empty
    decreases Intacts(s.objs), if t < |s.threads| then Work(s.threads[t]) else 0
  {
    if s.threads[t].stack == Empty then s
    else
      var order := NextOrder(s, t, drain);
      assert Enabled(s, t, Tick(order, false));
      TickProgress(s, t, order, false);
      Settle(DoTick(s, t, order, false).s, t, drain)
  }

  // ---------------------------------------------------------------- nothing leaks

  /** No thread is inside a step, every buffer is empty and no thread holds a strong handle. */
  predicate Quiet(s: State) {
    forall t | 0 <= t < |s.threads| ::
      s.threads[t].stack == Empty && s.threads[t].buf.entries == map[] && s.threads[t].strong == multiset{}
  }

  lemma {:induction false} NoFieldRefs(objs: seq<Obj>, o: nat)
    requires forall p :: 0 <= p < |objs| && objs[p].phase == Intact ==> o !in objs[p].kids
    ensures FieldRefs(objs, o) == 0
  {
    if objs != [] {
      assert forall p :: 0 <= p < |objs[1..]| ==> objs[1..][p] == objs[p + 1];
      NoFieldRefs(objs[1..], o);
    }
  }

  lemma {:induction false} QuietDropped(s: State, o: nat)
    requires Inv(s) && Quiet(s) && o < |s.objs|
    ensures s.objs[o].phase != Intact
    decreases |s.objs| - o
  {
    forall p | o < p < |s.objs| ensures s.objs[p].phase != Intact {
      QuietDropped(s, p);
    }
    forall p | 0 <= p < |s.objs| && s.objs[p].phase == Intact ensures o !in s.objs[p].kids {
    }
    NoFieldRefs(s.objs, o);
    forall k: Token | !k.WeakHandle? ensures Total(s.threads, k) == 0 {
      NoClaims(s.threads, k);
    }
    assert Conserved(s, o);
  }

  /** Once the buffers are flushed and nobody holds a strong handle, every object has been
      dropped, however deep the objects referred to each other; and what is not freed is
      kept by a weak handle alone. */
  lemma NothingLeaks(s: State)
    requires Inv(s) && Quiet(s)
    ensures forall o :: 0 <= o < |s.objs| ==> s.objs[o].phase != Intact
    ensures forall o :: 0 <= o < |s.objs| ==> (s.objs[o].phase == Freed <==> Total(s.threads, WeakHandle(o)) == 0)
  {
    forall o | 0 <= o < |s.objs|
      ensures s.objs[o].phase != Intact
      ensures s.objs[o].phase == Freed <==> Total(s.threads, WeakHandle(o)) == 0
    {
      QuietDropped(s, o);
      forall k: Token | !k.WeakHandle? ensures Total(s.threads, k) == 0 {
        NoClaims(s.threads, k);
      }
      assert Conserved(s, o);
    }
  }
}
