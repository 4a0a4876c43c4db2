/** What the callers of the tables without a read lock get, and that they get it. */
module ConcurrentCalls {
  import opened Basics
  import opened ConcurrentTables

  /** The thread does not leave its call in this part of the run. */
  predicate StaysInside(schedule: seq<(nat, Action)>, t: nat) {
    forall i | 0 <= i < |schedule| :: schedule[i] != (t, Return)
  }

  /** Starting and returning do what they say, an action moves no thread but its own, and what
      is in the map stays. */
  lemma ActionsAreLocal(s: State, u: nat, act: Action)
    requires Inv(s) && Enabled(s, u, act)
    ensures Inv(Do(s, u, act)) && |Do(s, u, act).threads| == |s.threads|
    ensures forall t :: 0 <= t < |s.threads| && t != u ==> Do(s, u, act).threads[t] == s.threads[t]
    ensures forall d :: d in s.map_ ==> d in Do(s, u, act).map_ && Do(s, u, act).map_[d] == s.map_[d]
    ensures match act
            case Start(op) => Do(s, u, act).threads[u] == Lookup(op)
            case Return => Do(s, u, act).threads[u] == Outside
            case Elsewhere => Do(s, u, act).threads[u] == s.threads[u] && Do(s, u, act).counter == s.counter + 1
            case Step => true
  {
    StepInv(s, u, act);
    if act.Step? {
      assert PcOk(s, u);
      StepMoved(s, u);
    }
  }

  /** A thread outside of calls can start any, and one that is done can return. */
  lemma CallsArePossible(s: State, t: nat, op: Op)
    requires t < |s.threads|
    ensures s.threads[t].Outside? ==> Enabled(s, t, Start(op)) && Do(s, t, Start(op)).threads[t] == Lookup(op)
    ensures s.threads[t].Done? ==> Enabled(s, t, Return) && Do(s, t, Return).threads[t] == Outside
  {
  }

  /** A run is its actions, one after the other. */
  lemma {:induction false} RunsStepByStep(s: State, schedule: seq<(nat, Action)>, t: nat, act: Action)
    ensures Run(s, schedule + [(t, act)]) ==
      var r := Run(s, schedule); if Enabled(r, t, act) then Do(r, t, act) else r
    decreases |schedule|
  {
    if schedule == [] {
      assert schedule + [(t, act)] == [(t, act)] && [(t, act)][1..] == [];
    } else {
      var (u, first) := schedule[0];
      assert (schedule + [(t, act)])[1..] == schedule[1..] + [(t, act)];
      RunsStepByStep(if Enabled(s, u, first) then Do(s, u, first) else s, schedule[1..], t, act);
    }
  }

  // ---------------------------------------------------------------- answers

  /** A lookup of a value that is in the map when the call starts finds it. */
  lemma {:induction false} GetFinds(s: State, schedule: seq<(nat, Action)>, t: nat, d: Data, r: nat)
    requires Inv(s) && t < |s.threads| && StaysInside(schedule, t) && d in s.map_ && s.map_[d] == r
    requires s.threads[t] in {Lookup(Get(d)), Done(Get(d), Some(r))}
    ensures t < |Run(s, schedule).threads|
    ensures Run(s, schedule).threads[t] in {Lookup(Get(d)), Done(Get(d), Some(r))}
    decreases |schedule|
  {
    if schedule != [] {
      var (u, act) := schedule[0];
      assert StaysInside(schedule[1..], t);
      if Enabled(s, u, act) {
        ActionsAreLocal(s, u, act);
        GetFinds(Do(s, u, act), schedule[1..], t, d, r);
      } else {
        GetFinds(s, schedule[1..], t, d, r);
      }
    }
  }

  /** What a call can end with, seen from the map at its start and the map at its end: a value
      that was there is found; `None` means it was not there; a reference is the one the map
      has; and a value that is still not there is not found. */
  lemma GetAnswers(kind: Kind, threads: nat, before: seq<(nat, Action)>, during: seq<(nat, Action)>, t: nat, d: Data,
                   got: Option<nat>)
    requires var s := Run(Init(kind, threads), before);
      && t < |s.threads| && s.threads[t] == Lookup(Get(d)) && StaysInside(during, t)
      && var s' := Run(s, during);
        t < |s'.threads| && s'.threads[t] == Done(Get(d), got)
    ensures var s := Run(Init(kind, threads), before);
      var s' := Run(s, during);
      && (d in s.map_ ==> got == Some(s.map_[d]))
      && (got == None ==> d !in s.map_)
      && (got.Some? ==> d in s'.map_ && got.value == s'.map_[d])
      && (d !in s'.map_ ==> got == None)
  {
    InitInv(kind, threads);
    RunRefines(Init(kind, threads), before);
    var s := Run(Init(kind, threads), before);
    RunRefines(s, during);
    assert PcOk(Run(s, during), t);
    if d in s.map_ {
      GetFinds(s, during, t, d, s.map_[d]);
    }
  }

  /** `get_or_insert` ends with the reference the map has for the value from then on, which is
      the one it had before if there was one. */
  lemma InternAnswers(kind: Kind, threads: nat, before: seq<(nat, Action)>, during: seq<(nat, Action)>, t: nat,
                      d: Data, got: Option<nat>)
    requires var s' := Run(Run(Init(kind, threads), before), during);
      t < |s'.threads| && s'.threads[t] == Done(Intern(d), got)
    ensures var s := Run(Init(kind, threads), before);
      var s' := Run(s, during);
      && d in s'.map_ && got == Some(s'.map_[d])
      && (d in s.map_ ==> got == Some(s.map_[d]))
  {
    InitInv(kind, threads);
    RunRefines(Init(kind, threads), before);
    var s := Run(Init(kind, threads), before);
    RunRefines(s, during);
    assert PcOk(Run(s, during), t);
    NothingLost(kind, threads, before, during);
  }

  // ---------------------------------------------------------------- calls end

  /** Own steps left in a call. */
  function StepsLeft(pc: Pc): nat {
    match pc
    case Outside => 0
    case Lookup(op) => if op.Get? then 1 else 7
    case WaitLock(_) => 6
    case Recheck(_) => 5
    case Meta(_, _) => 4
    case Build(_, _, _) => 3
    case Publish(_, _, _) => 2
    case Unlock(_, _) => 1
    case Done(_, _) => 0
  }

  /** The operation a thread is inside of. */
  function OpOf(pc: Pc): Op
    requires !pc.Outside?
  {
    if pc.Lookup? || pc.Done? then pc.op else Intern(pc.d)
  }

  function OwnSteps(t: nat, n: nat): seq<(nat, Action)> {
    if n == 0 then [] else [(t, Step)] + OwnSteps(t, n - 1)
  }

  lemma OwnStepAdvances(s: State, t: nat)
    requires Inv(s) && t < |s.threads| && (s.lock == None || s.lock == Some(t)) && StepsLeft(s.threads[t]) > 0
    ensures Enabled(s, t, Step) && |Do(s, t, Step).threads| == |s.threads|
    ensures var s' := Do(s, t, Step);
      && StepsLeft(s'.threads[t]) < StepsLeft(s.threads[t]) && (s'.lock == None || s'.lock == Some(t))
      && !s'.threads[t].Outside? && OpOf(s'.threads[t]) == OpOf(s.threads[t])
  {
    assert PcOk(s, t);
  }

  lemma {:induction false} Finishes(s: State, t: nat, n: nat)
    requires Inv(s) && t < |s.threads| && (s.lock == None || s.lock == Some(t))
    requires !s.threads[t].Outside? && StepsLeft(s.threads[t]) <= n
    ensures var s' := Run(s, OwnSteps(t, n));
      && Inv(s') && t < |s'.threads| && s'.threads[t].Done? && OpOf(s'.threads[t]) == OpOf(s.threads[t])
      && (s'.lock == None || s'.lock == Some(t))
    decreases n
  {
    if n > 0 {
      assert OwnSteps(t, n)[1..] == OwnSteps(t, n - 1);
      if s.threads[t].Done? {
        Finishes(s, t, n - 1);
      } else {
        OwnStepAdvances(s, t);
        StepInv(s, t, Step);
        Finishes(Do(s, t, Step), t, n - 1);
      }
    }
  }

  /** A call that finds the writers' lock free, or has it, ends within seven steps of its own. */
  lemma CallEndsInSeven(s: State, t: nat)
    requires Inv(s) && t < |s.threads| && !s.threads[t].Outside? && (s.lock == None || s.lock == Some(t))
    ensures var s' := Run(s, OwnSteps(t, 7));
      t < |s'.threads| && s'.threads[t].Done? && OpOf(s'.threads[t]) == OpOf(s.threads[t])
  {
    Finishes(s, t, 7);
  }

  /** A lookup ends after one step, whoever has the lock. */
  lemma GetNeverWaits(s: State, t: nat, d: Data)
    requires Inv(s) && t < |s.threads| && s.threads[t] == Lookup(Get(d))
    ensures Enabled(s, t, Step) && Do(s, t, Step).threads[t].Done? && Do(s, t, Step).map_ == s.map_
  {
  }

  /** And whoever has the lock gives it back within five steps of its own: no writer waits
      for ever unless the scheduler lets it. */
  lemma LockComesFree(s: State, u: nat)
    requires Inv(s) && s.kind == ArcSwap && u < |s.threads| && s.lock == Some(u)
    ensures Run(s, OwnSteps(u, 5)).lock == None
  {
    assert PcOk(s, u);
    Finishes(s, u, 5);
    KindStays(s, OwnSteps(u, 5));
    assert PcOk(Run(s, OwnSteps(u, 5)), u);
  }
}
