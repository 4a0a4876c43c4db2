/** The two tables that are read without a lock, as machines of atomic steps taken by any
    number of threads: read-copy-update (hirpdag_hashconsing/src/table/arcswap_strong.rs)
    and build-then-try-insert (hirpdag_hashconsing/src/table/flurry_strong.rs). */
module ConcurrentTables {
  import opened Basics

  /** Interned data; only its equality matters here. */
  type Data(==, !new)

  datatype Op = Get(d: Data) | Intern(d: Data)

  // ---------------------------------------------------------------- what callers may rely on

  /** The specification: every operation takes effect in one atomic step on one map. */
  datatype Call = Idle | Pending(op: Op) | Returned(op: Op, r: Option<nat>)

  datatype Spec = Spec(map_: map<Data, nat>, calls: seq<Call>)

  datatype SpecAction = Begin(t: nat, op: Op) | Commit(t: nat, fresh_: nat) | End(t: nat)

  /** `fresh_` is the reference a committing `Intern` uses if the value is new; it must not
      be in the map already. */
  predicate SpecEnabled(a: Spec, act: SpecAction) {
    && act.t < |a.calls|
    && match act
       case Begin(t, _) => a.calls[t].Idle?
       case End(t) => a.calls[t].Returned?
       case Commit(t, r) =>
         a.calls[t].Pending? &&
         (a.calls[t].op.Intern? && a.calls[t].op.d !in a.map_ ==> r !in a.map_.Values)
  }

  function SpecDo(a: Spec, act: SpecAction): Spec
    requires SpecEnabled(a, act)
  {
    match act
    case Begin(t, op) => a.(calls := a.calls[t := Pending(op)])
    case End(t) => a.(calls := a.calls[t := Idle])
    case Commit(t, fresh_) =>
      var op := a.calls[t].op;
      if op.d in a.map_ then a.(calls := a.calls[t := Returned(op, Some(a.map_[op.d]))])
      else if op.Get? then a.(calls := a.calls[t := Returned(op, None)])
      else Spec(a.map_[op.d := fresh_], a.calls[t := Returned(op, Some(fresh_))])
  }

  function SpecRun(a: Spec, acts: seq<SpecAction>): Option<Spec>
    decreases |acts|
  {
    if acts == [] then Some(a)
    else if SpecEnabled(a, acts[0]) then SpecRun(SpecDo(a, acts[0]), acts[1..])
    else None
  }

  /** One reference per value, and whatever an `Intern` returned is in the map. */
  ghost predicate SpecInv(a: Spec) {
    && (forall d, e :: d in a.map_ && e in a.map_ && a.map_[d] == a.map_[e] ==> d == e)
    && (forall t :: 0 <= t < |a.calls| && a.calls[t].Returned? && (a.calls[t].op.Intern? || a.calls[t].r.Some?) ==>
          a.calls[t].op.d in a.map_ && a.calls[t].r == Some(a.map_[a.calls[t].op.d]))
  }

  /** Whatever was interned stays interned, under the same reference. */
  lemma {:induction false} SpecRunGrows(a: Spec, acts: seq<SpecAction>)
    requires SpecInv(a) && SpecRun(a, acts).Some?
    ensures SpecInv(SpecRun(a, acts).value)
    ensures forall d :: d in a.map_ ==> d in SpecRun(a, acts).value.map_ && SpecRun(a, acts).value.map_[d] == a.map_[d]
    decreases |acts|
  {
    if acts != [] {
      var b := SpecDo(a, acts[0]);
      SpecRunGrows(b, acts[1..]);
      assert forall d :: d in a.map_ ==> d in b.map_ && b.map_[d] == a.map_[d];
    }
  }

  lemma {:induction false} SpecRunSplit(a: Spec, acts: seq<SpecAction>, more: seq<SpecAction>)
    requires SpecRun(a, acts).Some?
    ensures SpecRun(a, acts + more) == SpecRun(SpecRun(a, acts).value, more)
    decreases |acts|
  {
    if acts == [] {
      assert acts + more == more;
    } else {
      assert (acts + more)[1..] == acts[1..] + more;
      SpecRunSplit(SpecDo(a, acts[0]), acts[1..], more);
    }
  }

  // ---------------------------------------------------------------- the machines

  datatype Kind = ArcSwap | Flurry

  /** What a thread does next. `seen` is the map an `ArcSwap` writer has loaded under the lock. */
  datatype Pc =
    | Outside
    | Lookup(op: Op)                                   // read the published map
    | WaitLock(d: Data)                                // lock the writers
    | Recheck(d: Data)                                 // read the published map again
    | Meta(d: Data, seen: map<Data, nat>)              // run creation_meta, which takes an ID
    | Build(d: Data, seen: map<Data, nat>, id: nat)    // allocate the node
    | Publish(d: Data, seen: map<Data, nat>, r: nat)   // store the copy, or try to insert
    | Unlock(d: Data, r: nat)
    | Done(op: Op, got: Option<nat>)

  datatype Obj = Obj(data: Data, id: nat)

  /** History: `runs` are the runs of `creation_meta`, `lost` the nodes built and thrown away,
      `raced` the values that were looked up in vain while another call for the same value
      was between its own vain lookup and its insertion. */
  datatype State = State(kind: Kind, map_: map<Data, nat>, lock: Option<nat>, objs: seq<Obj>, counter: nat,
                         threads: seq<Pc>, runs: multiset<Data>, lost: multiset<Data>, raced: set<Data>)

  /** `Elsewhere` is another table taking a creation ID. */
  datatype Action = Start(op: Op) | Step | Return | Elsewhere

  predicate Enabled(s: State, t: nat, act: Action) {
    && t < |s.threads|
    && match act
       case Start(_) => s.threads[t].Outside?
       case Step => !s.threads[t].Outside? && !s.threads[t].Done? && (s.threads[t].WaitLock? ==> s.lock == None)
       case Return => s.threads[t].Done?
       case Elsewhere => true
  }

  /** A call for `d` between its vain lookup and its insertion. */
  predicate Making(pc: Pc, d: Data) {
    (pc.Meta? || pc.Build? || pc.Publish?) && pc.d == d
  }

  /** One for which `creation_meta` has run. */
  predicate Made(pc: Pc, d: Data) {
    (pc.Build? || pc.Publish?) && pc.d == d
  }

  function Do(s: State, t: nat, act: Action): State
    requires Enabled(s, t, act)
  {
    match act
    case Start(op) => At(s, t, Lookup(op))
    case Return => At(s, t, Outside)
    case Elsewhere => s.(counter := s.counter + 1)
    case Step => DoStep(s, t)
  }

  function At(s: State, t: nat, pc: Pc): State
    requires t < |s.threads|
  {
    s.(threads := s.threads[t := pc])
  }

  function DoStep(s: State, t: nat): State
    requires Enabled(s, t, Step)
  {
    match s.threads[t]
    case Lookup(op) =>
      if op.d in s.map_ then At(s, t, Done(op, Some(s.map_[op.d])))
      else if op.Get? then At(s, t, Done(op, None))
      else if s.kind == ArcSwap then At(s, t, WaitLock(op.d))
      else At(s, t, Meta(op.d, map[])).(raced := s.raced + if CountMaking(s.threads, op.d) > 0 then {op.d} else {})
    case WaitLock(d) => At(s, t, Recheck(d)).(lock := Some(t))
    case Recheck(d) =>
      if d in s.map_ then At(s, t, Unlock(d, s.map_[d])) else At(s, t, Meta(d, s.map_))
    case Meta(d, seen) =>
      At(s, t, Build(d, seen, s.counter)).(counter := s.counter + 1, runs := s.runs[d := s.runs[d] + 1])
    case Build(d, seen, id) =>
      At(s, t, Publish(d, seen, |s.objs|)).(objs := s.objs + [Obj(d, id)])
    case Publish(d, seen, r) =>
      if s.kind == ArcSwap then At(s, t, Unlock(d, r)).(map_ := seen[d := r])
      else if d in s.map_ then At(s, t, Done(Intern(d), Some(s.map_[d]))).(lost := s.lost[d := s.lost[d] + 1])
      else At(s, t, Done(Intern(d), Some(r))).(map_ := s.map_[d := r])
    case Unlock(d, r) => At(s, t, Done(Intern(d), Some(r))).(lock := None)
  }

  function CountMaking(ts: seq<Pc>, d: Data): nat {
    if ts == [] then 0 else (if Making(ts[0], d) then 1 else 0) + CountMaking(ts[1..], d)
  }

  function CountMade(ts: seq<Pc>, d: Data): nat {
    if ts == [] then 0 else (if Made(ts[0], d) then 1 else 0) + CountMade(ts[1..], d)
  }

  function Run(s: State, schedule: seq<(nat, Action)>): State
    decreases |schedule|
  {
    if schedule == [] then s
    else if Enabled(s, schedule[0].0, schedule[0].1) then Run(Do(s, schedule[0].0, schedule[0].1), schedule[1..])
    else Run(s, schedule[1..])
  }

  function Init(kind: Kind, threads: nat): (s: State)
    ensures s.kind == kind && |s.threads| == threads && forall t :: 0 <= t < threads ==> s.threads[t] == Outside
  {
    State(kind, map[], None, [], 1, seq(threads, i => Outside), multiset{}, multiset{}, {})
  }

  // ---------------------------------------------------------------- the invariant

  predicate Locking(pc: Pc) {
    pc.Recheck? || pc.Meta? || pc.Build? || pc.Publish? || pc.Unlock?
  }

  ghost predicate PcOk(s: State, t: nat)
    requires t < |s.threads|
  {
    var pc := s.threads[t];
    && (s.kind == ArcSwap ==> (Locking(pc) <==> s.lock == Some(t)))
    && (s.kind == Flurry ==> !pc.WaitLock? && !pc.Recheck? && !pc.Unlock?)
    && match pc
       case Meta(d, seen) => s.kind == ArcSwap ==> seen == s.map_ && d !in seen
       case Build(d, seen, id) => s.kind == ArcSwap ==> seen == s.map_ && d !in seen
       case Publish(d, seen, r) =>
         r < |s.objs| && s.objs[r].data == d && (s.kind == ArcSwap ==> seen == s.map_ && d !in seen)
       case Unlock(d, r) => d in s.map_ && s.map_[d] == r
       case Done(op, r) => op.Intern? || r.Some? ==> op.d in s.map_ && r == Some(s.map_[op.d])
       case _ => true
  }

  /** Creation IDs are never given twice, not even to nodes that are thrown away. */
  ghost predicate IdsOk(s: State) {
    && (forall i :: 0 <= i < |s.objs| ==> s.objs[i].id < s.counter)
    && (forall i, j :: 0 <= i < j < |s.objs| ==> s.objs[i].id != s.objs[j].id)
    && (forall t :: 0 <= t < |s.threads| && s.threads[t].Build? ==> s.threads[t].id < s.counter)
    && (forall t, i :: 0 <= t < |s.threads| && s.threads[t].Build? && 0 <= i < |s.objs| ==>
      s.threads[t].id != s.objs[i].id)
    && (forall t, u :: 0 <= t < u < |s.threads| && s.threads[t].Build? && s.threads[u].Build? ==>
      s.threads[t].id != s.threads[u].id)
  }

  /** How often `creation_meta` has run for one value. */
  ghost predicate RunsOk(s: State, d: Data) {
    Counted(s.kind, d in s.map_, d in s.raced, s.runs[d], s.lost[d], CountMaking(s.threads, d), CountMade(s.threads, d))
  }

  predicate Counted(kind: Kind, inserted: bool, raced: bool, runs: nat, lost: nat, making: nat, made: nat) {
    && runs == (if inserted then 1 else 0) + made + lost
    && (if raced then making + lost >= if inserted then 1 else 2
        else lost == 0 && if inserted then making == 0 else making <= 1)
    && (!inserted ==> lost == 0)
    && (kind == ArcSwap ==> !raced)
  }

  ghost predicate Inv(s: State) {
    && (forall d :: d in s.map_ ==> s.map_[d] < |s.objs| && s.objs[s.map_[d]].data == d)
    && (forall t :: 0 <= t < |s.threads| ==> PcOk(s, t))
    && IdsOk(s)
    && (forall d :: RunsOk(s, d))
  }

  lemma {:induction false} CountsSet(ts: seq<Pc>, t: nat, pc: Pc, d: Data)
    requires t < |ts|
    ensures CountMaking(ts[t := pc], d) ==
      CountMaking(ts, d) - (if Making(ts[t], d) then 1 else 0) + (if Making(pc, d) then 1 else 0)
    ensures CountMade(ts[t := pc], d) ==
      CountMade(ts, d) - (if Made(ts[t], d) then 1 else 0) + (if Made(pc, d) then 1 else 0)
    ensures Making(ts[t], d) ==> CountMaking(ts, d) >= 1
    ensures CountMade(ts, d) <= CountMaking(ts, d)
  {
    MadeMaking(ts, d);
    if t == 0 {
      assert ts[t := pc][1..] == ts[1..];
    } else {
      assert ts[t := pc][1..] == ts[1..][t - 1 := pc];
      CountsSet(ts[1..], t - 1, pc, d);
    }
  }

  lemma {:induction false} MadeMaking(ts: seq<Pc>, d: Data)
    ensures CountMade(ts, d) <= CountMaking(ts, d)
  {
    if ts != [] { MadeMaking(ts[1..], d); }
  }

  lemma {:induction false} NoMaking(ts: seq<Pc>, d: Data)
    requires forall u :: 0 <= u < |ts| ==> !Making(ts[u], d)
    ensures CountMaking(ts, d) == 0
  {
    if ts != [] { NoMaking(ts[1..], d); }
  }

  lemma StepRuns(s: State, t: nat, d: Data)
    requires Inv(s) && Enabled(s, t, Step)
    ensures RunsOk(DoStep(s, t), d)
  {
    assert RunsOk(s, d) && PcOk(s, t);
    if s.kind == ArcSwap && s.threads[t].Recheck? {
      forall u | 0 <= u < |s.threads| ensures !Making(s.threads[u], d) { assert PcOk(s, u); }
      NoMaking(s.threads, d);
    }
    if s.threads[t].Publish? { PublishRuns(s, t, d); } else { OtherRuns(s, t, d); }
  }

  lemma PublishRuns(s: State, t: nat, d: Data)
    requires Enabled(s, t, Step) && RunsOk(s, d) && PcOk(s, t) && s.threads[t].Publish?
    ensures RunsOk(DoStep(s, t), d)
  {
    var s' := DoStep(s, t);
    CountsSet(s.threads, t, s'.threads[t], d);
    assert !Making(s'.threads[t], d);
    if s.threads[t].d != d {
      assert (d in s'.map_ <==> d in s.map_) && s'.lost[d] == s.lost[d];
    }
  }

  lemma OtherRuns(s: State, t: nat, d: Data)
    requires Enabled(s, t, Step) && RunsOk(s, d) && PcOk(s, t) && !s.threads[t].Publish?
    requires s.kind == ArcSwap && s.threads[t].Recheck? ==> CountMaking(s.threads, d) == 0
    ensures RunsOk(DoStep(s, t), d)
  {
    if s.threads[t].Lookup? {
      LookupRuns(s, t, d);
    } else if s.threads[t].Recheck? {
      RecheckRuns(s, t, d);
    } else if s.threads[t].Meta? {
      MetaRuns(s, t, d);
    } else {
      SameRuns(s, DoStep(s, t), t, d);
    }
  }

  lemma SameRuns(s: State, s': State, t: nat, d: Data)
    requires RunsOk(s, d) && t < |s.threads| == |s'.threads| && s'.threads == s.threads[t := s'.threads[t]]
    requires s'.kind == s.kind && s'.map_ == s.map_ && s'.runs == s.runs && s'.lost == s.lost && s'.raced == s.raced
    requires Making(s'.threads[t], d) == Making(s.threads[t], d) && Made(s'.threads[t], d) == Made(s.threads[t], d)
    ensures RunsOk(s', d)
  {
    CountsSet(s.threads, t, s'.threads[t], d);
  }

  lemma LookupRuns(s: State, t: nat, d: Data)
    requires Enabled(s, t, Step) && RunsOk(s, d) && s.threads[t].Lookup?
    ensures RunsOk(DoStep(s, t), d)
  {
    CountsSet(s.threads, t, DoStep(s, t).threads[t], d);
  }

  lemma RecheckRuns(s: State, t: nat, d: Data)
    requires Enabled(s, t, Step) && RunsOk(s, d) && s.threads[t].Recheck? && s.kind == ArcSwap
    requires CountMaking(s.threads, d) == 0
    ensures RunsOk(DoStep(s, t), d)
  {
    CountsSet(s.threads, t, DoStep(s, t).threads[t], d);
  }

  lemma MetaRuns(s: State, t: nat, d: Data)
    requires Enabled(s, t, Step) && RunsOk(s, d) && s.threads[t].Meta?
    ensures RunsOk(DoStep(s, t), d)
  {
    CountsSet(s.threads, t, DoStep(s, t).threads[t], d);
  }

  lemma StepIds(s: State, t: nat)
    requires IdsOk(s) && Enabled(s, t, Step)
    ensures IdsOk(DoStep(s, t))
  {
    var s' := DoStep(s, t);
    if s.threads[t].Meta? {
      TakesId(s, s', t);
    } else if s.threads[t].Build? {
      SpendsId(s, s', t);
    } else {
      KeepsIds(s, s', t);
    }
  }

  lemma TakesId(s: State, s': State, t: nat)
    requires IdsOk(s) && t < |s.threads| && s'.objs == s.objs && s'.counter == s.counter + 1
    requires t < |s'.threads| && s'.threads[t].Build? && s'.threads[t].id == s.counter
    requires s'.threads == s.threads[t := s'.threads[t]]
    ensures IdsOk(s')
  {
  }

  lemma SpendsId(s: State, s': State, t: nat)
    requires IdsOk(s) && t < |s.threads| && s.threads[t].Build? && s'.counter == s.counter
    requires s'.objs == s.objs + [Obj(s.threads[t].d, s.threads[t].id)]
    requires t < |s'.threads| && !s'.threads[t].Build? && s'.threads == s.threads[t := s'.threads[t]]
    ensures IdsOk(s')
  {
    forall i, j | 0 <= i < j < |s'.objs| ensures s'.objs[i].id != s'.objs[j].id {
      assert s'.objs[i] == s.objs[i];
    }
  }

  lemma KeepsIds(s: State, s': State, t: nat)
    requires IdsOk(s) && t < |s.threads| && s'.objs == s.objs && s'.counter == s.counter
    requires t < |s'.threads| && !s'.threads[t].Build? && s'.threads == s.threads[t := s'.threads[t]]
    ensures IdsOk(s')
  {
  }

  /** What a step of thread `t` does to what the others have seen. */
  ghost predicate Moved(s: State, s': State, t: nat) {
    && |s'.threads| == |s.threads| && s'.kind == s.kind && s.objs <= s'.objs && s.counter <= s'.counter
    && (forall u :: 0 <= u < |s.threads| && u != t ==>
      s'.threads[u] == s.threads[u] && (s'.lock == Some(u) <==> s.lock == Some(u)))
    && (forall d :: d in s.map_ ==> d in s'.map_ && s'.map_[d] == s.map_[d])
    && (s.kind == ArcSwap && s.lock != Some(t) ==> s'.map_ == s.map_)
    && (s.kind == ArcSwap && s.lock == Some(t) ==> forall u :: 0 <= u < |s.threads| && u != t ==> s.lock != Some(u))
  }

  lemma StepMoved(s: State, t: nat)
    requires Enabled(s, t, Step) && PcOk(s, t)
    ensures Moved(s, DoStep(s, t), t)
  {
  }

  lemma OtherPc(s: State, s': State, t: nat, u: nat)
    requires Moved(s, s', t) && u < |s.threads| && u != t && PcOk(s, u)
    ensures PcOk(s', u)
  {
  }

  lemma OwnPc(s: State, t: nat)
    requires Inv(s) && Enabled(s, t, Step)
    ensures PcOk(DoStep(s, t), t)
  {
    assert PcOk(s, t);
  }

  lemma StepMap(s: State, t: nat)
    requires Inv(s) && Enabled(s, t, Step)
    ensures var s' := DoStep(s, t); forall d :: d in s'.map_ ==> s'.map_[d] < |s'.objs| && s'.objs[s'.map_[d]].data == d
  {
    assert PcOk(s, t);
  }

  lemma StepInv(s: State, t: nat, act: Action)
    requires Inv(s) && Enabled(s, t, act)
    ensures Inv(Do(s, t, act))
  {
    assert PcOk(s, t);
    if act.Step? {
      var s' := DoStep(s, t);
      forall d ensures RunsOk(s', d) { StepRuns(s, t, d); }
      StepMoved(s, t);
      forall u | 0 <= u < |s.threads| ensures PcOk(s', u) {
        if u == t { OwnPc(s, t); } else { OtherPc(s, s', t, u); }
      }
      StepIds(s, t);
      StepMap(s, t);
    } else {
      OutsideInv(s, t, act);
    }
  }

  lemma OutsideInv(s: State, t: nat, act: Action)
    requires Inv(s) && Enabled(s, t, act) && !act.Step?
    ensures Inv(Do(s, t, act))
  {
    var s' := Do(s, t, act);
    forall u | 0 <= u < |s.threads| ensures PcOk(s', u) { assert PcOk(s, u); }
    forall d ensures RunsOk(s', d) {
      assert RunsOk(s, d);
      CountsSet(s.threads, t, s'.threads[t], d);
      assert s.threads[t := s.threads[t]] == s.threads;
    }
  }

  // ---------------------------------------------------------------- refinement

  function AbsPc(pc: Pc): Call {
    match pc
    case Outside => Idle
    case Lookup(op) => Pending(op)
    case Unlock(d, r) => Returned(Intern(d), Some(r))
    case Done(op, r) => Returned(op, r)
    case _ => Pending(Intern(pc.d))
  }

  function Abs(s: State): Spec {
    Spec(s.map_, seq(|s.threads|, i requires 0 <= i < |s.threads| => AbsPc(s.threads[i])))
  }

  /** The step of the specification this step amounts to, if any: an operation takes effect
      when its lookup hits, when a lookup without insertion misses, or when it publishes. */
  function Emits(s: State, t: nat, act: Action): seq<SpecAction>
    requires Enabled(s, t, act)
  {
    match act
    case Start(op) => [Begin(t, op)]
    case Return => [End(t)]
    case Elsewhere => []
    case Step =>
      match s.threads[t]
      case Lookup(op) => if op.d in s.map_ || op.Get? then [Commit(t, 0)] else []
      case Recheck(d) => if d in s.map_ then [Commit(t, 0)] else []
      case Publish(_, _, r) => [Commit(t, r)]
      case _ => []
  }

  lemma StepRefines(s: State, t: nat, act: Action)
    requires Inv(s) && Enabled(s, t, act)
    ensures SpecRun(Abs(s), Emits(s, t, act)) == Some(Abs(Do(s, t, act)))
  {
    assert PcOk(s, t);
    var a, s', e := Abs(s), Do(s, t, act), Emits(s, t, act);
    assert Abs(s').calls == a.calls[t := AbsPc(s'.threads[t])];
    assert a.calls[t] == AbsPc(s.threads[t]);
    if e == [] {
      assert a.calls[t := a.calls[t]] == a.calls;
    } else {
      assert e[1..] == [];
    }
  }

  /** The order in which the operations of a run take effect. */
  function Linearized(s: State, schedule: seq<(nat, Action)>): seq<SpecAction>
    decreases |schedule|
  {
    if schedule == [] then []
    else
      var (t, act) := schedule[0];
      if Enabled(s, t, act) then Emits(s, t, act) + Linearized(Do(s, t, act), schedule[1..])
      else Linearized(s, schedule[1..])
  }

  /** Main theorem: both tables, with any number of threads and any interleaving, do what
      the atomic map does. */
  lemma {:induction false} RunRefines(s: State, schedule: seq<(nat, Action)>)
    requires Inv(s)
    ensures Inv(Run(s, schedule))
    ensures SpecRun(Abs(s), Linearized(s, schedule)) == Some(Abs(Run(s, schedule)))
    decreases |schedule|
  {
    if schedule != [] {
      var (t, act) := schedule[0];
      if Enabled(s, t, act) {
        StepInv(s, t, act);
        StepRefines(s, t, act);
        RunRefines(Do(s, t, act), schedule[1..]);
        SpecRunSplit(Abs(s), Emits(s, t, act), Linearized(Do(s, t, act), schedule[1..]));
      } else {
        RunRefines(s, schedule[1..]);
      }
    }
  }

  lemma {:induction false} InitInv(kind: Kind, threads: nat)
    ensures Inv(Init(kind, threads))
  {
    forall d ensures RunsOk(Init(kind, threads), d) {
      NoMaking(Init(kind, threads).threads, d);
      MadeMaking(Init(kind, threads).threads, d);
    }
  }

  lemma AbsInv(s: State)
    requires Inv(s)
    ensures SpecInv(Abs(s))
  {
    var a := Abs(s);
    forall t | 0 <= t < |a.calls| && a.calls[t].Returned? && (a.calls[t].op.Intern? || a.calls[t].r.Some?)
      ensures a.calls[t].op.d in a.map_ && a.calls[t].r == Some(a.map_[a.calls[t].op.d])
    {
      assert PcOk(s, t);
    }
  }

  /** No insert is ever lost or replaced, there is one reference per value, whoever has
      interned equal data has been given the same reference, and no creation ID is given
      twice, not even to a node that is thrown away. */
  lemma NothingLost(kind: Kind, threads: nat, first: seq<(nat, Action)>, later: seq<(nat, Action)>)
    ensures var s, s' := Run(Init(kind, threads), first), Run(Run(Init(kind, threads), first), later);
      && (forall d :: d in s.map_ ==> d in s'.map_ && s'.map_[d] == s.map_[d])
      && (forall t, op, r :: 0 <= t < |s.threads| && s.threads[t] == Done(op, Some(r)) ==>
        op.d in s'.map_ && s'.map_[op.d] == r)
      && (forall d, e :: d in s'.map_ && e in s'.map_ && s'.map_[d] == s'.map_[e] ==> d == e)
      && (forall i, j :: 0 <= i < j < |s'.objs| ==> s'.objs[i].id != s'.objs[j].id)
  {
    InitInv(kind, threads);
    RunRefines(Init(kind, threads), first);
    var s := Run(Init(kind, threads), first);
    RunRefines(s, later);
    AbsInv(s);
    SpecRunGrows(Abs(s), Linearized(s, later));
    forall t, op, r | 0 <= t < |s.threads| && s.threads[t] == Done(op, Some(r))
      ensures op.d in s.map_ && s.map_[op.d] == r
    {
      assert PcOk(s, t);
    }
  }

  // ---------------------------------------------------------------- how often creation_meta runs

  /** `creation_meta` runs exactly once per inserted value in the copying table, always; in
      the optimistic table exactly when no two calls for the value looked it up in vain at
      the same time. Nothing runs for a value that is not inserted. */
  lemma RunsOnce(kind: Kind, threads: nat, schedule: seq<(nat, Action)>, d: Data)
    requires var s := Run(Init(kind, threads), schedule); CountMaking(s.threads, d) == 0
    ensures var s := Run(Init(kind, threads), schedule);
      if d in s.map_ then s.runs[d] == 1 <==> kind == ArcSwap || d !in s.raced
      else s.runs[d] == 0
  {
    InitInv(kind, threads);
    RunRefines(Init(kind, threads), schedule);
    var s := Run(Init(kind, threads), schedule);
    KindStays(Init(kind, threads), schedule);
    assert RunsOk(s, d);
    MadeMaking(s.threads, d);
  }

  lemma {:induction false} KindStays(s: State, schedule: seq<(nat, Action)>)
    ensures Run(s, schedule).kind == s.kind
    decreases |schedule|
  {
    if schedule != [] {
      if Enabled(s, schedule[0].0, schedule[0].1) {
        KindStays(Do(s, schedule[0].0, schedule[0].1), schedule[1..]);
      } else {
        KindStays(s, schedule[1..]);
      }
    }
  }

  // ---------------------------------------------------------------- a condition callers control

  /** The thread is inside a call of `get_or_insert` for this value. */
  predicate Interning(pc: Pc, d: Data) {
    match pc
    case Outside => false
    case Lookup(op) => op == Intern(d)
    case Done(op, _) => op == Intern(d)
    case _ => pc.d == d
  }

  predicate OneInterning(ts: seq<Pc>, d: Data) {
    forall t, u | 0 <= t < |ts| && 0 <= u < |ts| :: Interning(ts[t], d) && Interning(ts[u], d) ==> t == u
  }

  /** No two calls for the value overlap, now or later in the run. */
  ghost predicate NeverOverlap(s: State, schedule: seq<(nat, Action)>, d: Data)
    decreases |schedule|
  {
    && OneInterning(s.threads, d)
    && (schedule != [] ==>
          var (t, act) := schedule[0];
          NeverOverlap(if Enabled(s, t, act) then Do(s, t, act) else s, schedule[1..], d))
  }

  lemma {:induction false} CountedMaking(ts: seq<Pc>, d: Data) returns (t: nat)
    requires CountMaking(ts, d) > 0
    ensures t < |ts| && Making(ts[t], d)
  {
    if Making(ts[0], d) {
      t := 0;
    } else {
      t := CountedMaking(ts[1..], d);
      t := t + 1;
    }
  }

  lemma {:induction false} NoOverlapNoRace(s: State, schedule: seq<(nat, Action)>, d: Data)
    requires d !in s.raced && NeverOverlap(s, schedule, d)
    ensures d !in Run(s, schedule).raced
    decreases |schedule|
  {
    if schedule != [] {
      var (t, act) := schedule[0];
      if Enabled(s, t, act) {
        if act.Step? && s.threads[t] == Lookup(Intern(d)) && CountMaking(s.threads, d) > 0 {
          var u := CountedMaking(s.threads, d);
          assert Interning(s.threads[t], d) && Interning(s.threads[u], d);
        }
        NoOverlapNoRace(Do(s, t, act), schedule[1..], d);
      } else {
        NoOverlapNoRace(s, schedule[1..], d);
      }
    }
  }

  /** If calls for a value never overlap, its metadata is computed once, in either table. */
  lemma RunsOnceWithoutOverlap(kind: Kind, threads: nat, schedule: seq<(nat, Action)>, d: Data)
    requires NeverOverlap(Init(kind, threads), schedule, d)
    requires CountMaking(Run(Init(kind, threads), schedule).threads, d) == 0
    ensures var s := Run(Init(kind, threads), schedule); s.runs[d] == if d in s.map_ then 1 else 0
  {
    NoOverlapNoRace(Init(kind, threads), schedule, d);
    RunsOnce(kind, threads, schedule, d);
  }

  // ---------------------------------------------------------------- a race

  /** Two threads interning the same value, taking turns. */
  function Race(d: Data): seq<(nat, Action)> {
    [(0, Start(Intern(d))), (1, Start(Intern(d))), (0, Step), (1, Step), (0, Step), (1, Step),
     (0, Step), (1, Step), (0, Step), (1, Step)]
  }

  /** In the optimistic table `creation_meta` then runs twice although one entry is inserted. */
  lemma RunsTwice(d: Data)
    ensures var s := Run(Init(Flurry, 2), Race(d));
      && s.map_ == map[d := 0] && s.runs[d] == 2 && s.raced == {d}
      && s.threads == [Done(Intern(d), Some(0)), Done(Intern(d), Some(0))]
      && s.objs == [Obj(d, 1), Obj(d, 2)]
  {
    var i := 0;
    assert Race(d)[0..] == Race(d) && Init(Flurry, 2) == RaceState(d, 0);
    while i < 10
      invariant 0 <= i <= 10 && Run(Init(Flurry, 2), Race(d)) == Run(RaceState(d, i), Race(d)[i..])
    {
      assert Race(d)[i..][1..] == Race(d)[i + 1..];
      RaceStep(d, i);
      i := i + 1;
    }
  }

  lemma RaceStep(d: Data, i: nat)
    requires i < 10
    ensures Enabled(RaceState(d, i), Race(d)[i].0, Race(d)[i].1)
    ensures Do(RaceState(d, i), Race(d)[i].0, Race(d)[i].1) == RaceState(d, i + 1)
  {
    if i < 4 { RaceStarts(d, i); } else if i < 7 { RaceGoesOn(d, i); } else { RaceEnds(d, i); }
  }

  lemma RaceStarts(d: Data, i: nat)
    requires i < 4
    ensures Enabled(RaceState(d, i), Race(d)[i].0, Race(d)[i].1)
    ensures Do(RaceState(d, i), Race(d)[i].0, Race(d)[i].1) == RaceState(d, i + 1)
  {
    CountTwo(RacePcs(d, i)[0], RacePcs(d, i)[1], d);
    assert RacePcs(d, i + 1) == RacePcs(d, i)[i % 2 := RacePcs(d, i + 1)[i % 2]];
  }

  lemma RaceGoesOn(d: Data, i: nat)
    requires 4 <= i < 7
    ensures Enabled(RaceState(d, i), Race(d)[i].0, Race(d)[i].1)
    ensures Do(RaceState(d, i), Race(d)[i].0, Race(d)[i].1) == RaceState(d, i + 1)
  {
    assert RacePcs(d, i + 1) == RacePcs(d, i)[i % 2 := RacePcs(d, i + 1)[i % 2]];
  }

  lemma RaceEnds(d: Data, i: nat)
    requires 7 <= i < 10
    ensures Enabled(RaceState(d, i), Race(d)[i].0, Race(d)[i].1)
    ensures Do(RaceState(d, i), Race(d)[i].0, Race(d)[i].1) == RaceState(d, i + 1)
  {
    assert RacePcs(d, i + 1) == RacePcs(d, i)[i % 2 := RacePcs(d, i + 1)[i % 2]];
  }

  lemma CountTwo(a: Pc, b: Pc, d: Data)
    ensures CountMaking([a, b], d) == (if Making(a, d) then 1 else 0) + (if Making(b, d) then 1 else 0)
  {
    assert [a, b][1..] == [b] && [b][1..] == [];
    assert CountMaking([b], d) == (if Making(b, d) then 1 else 0) + CountMaking([], d);
  }

  function RacePcs(d: Data, i: nat): seq<Pc> {
    var op, none := Intern(d), map[];
    if i == 0 then [Outside, Outside]
    else if i == 1 then [Lookup(op), Outside]
    else if i == 2 then [Lookup(op), Lookup(op)]
    else if i == 3 then [Meta(d, none), Lookup(op)]
    else if i == 4 then [Meta(d, none), Meta(d, none)]
    else if i == 5 then [Build(d, none, 1), Meta(d, none)]
    else if i == 6 then [Build(d, none, 1), Build(d, none, 2)]
    else if i == 7 then [Publish(d, none, 0), Build(d, none, 2)]
    else if i == 8 then [Publish(d, none, 0), Publish(d, none, 1)]
    else if i == 9 then [Done(op, Some(0)), Publish(d, none, 1)]
    else [Done(op, Some(0)), Done(op, Some(0))]
  }

  /** The states of that run, one by one. */
  function RaceState(d: Data, i: nat): State {
    State(Flurry, if i < 9 then map[] else map[d := 0], None,
          if i < 7 then [] else if i < 8 then [Obj(d, 1)] else [Obj(d, 1), Obj(d, 2)],
          if i < 5 then 1 else if i < 6 then 2 else 3, RacePcs(d, i),
          multiset{}[d := if i < 5 then 0 else if i < 6 then 1 else 2],
          multiset{}[d := if i < 10 then 0 else 1], if i < 4 then {} else {d})
  }
}
