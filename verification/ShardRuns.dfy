/** Calls on the sharded table that overlap in time (hirpdag_hashconsing/src/table/shared_sharded.rs).
    Each call holds the lock of its shard from its lookup to its insertion; calls on other
    shards run meanwhile, nodes are created and die at any time, and the table is still one
    table. */
module ShardRuns {
  import opened Basics
  import opened HashTables
  import opened TableSpec
  import opened World

  datatype Call<D> =
    | Outside
    | Waiting(d: D, insert: bool)                  // hashed, waiting for the lock of the shard
    | Inside(d: D, insert: bool, begun: nat)       // holds it; `begun` nodes existed at the time
    | Returned(d: D, insert: bool, r: Option<nat>)

  /** `views` is what the shards hold, as seen when their lock is free. */
  datatype State<D> = State(views: seq<TableView>, locks: seq<Option<nat>>, data: seq<D>, dead: set<nat>,
                            calls: seq<Call<D>>)

  datatype Action<D> =
    | Start(d: D, insert: bool)
    | Lock
    | Finish(after: TableView, r: Option<nat>, runs: int)
    | Return
    | Elapse(births: seq<D>, deaths: set<nat>)

  ghost function ShardOfCall<D(!new)>(c: Call<D>, hashOf: D -> nat): nat
    requires c.Waiting? || c.Inside?
  {
    ShardOf(hashOf(c.d))
  }

  /** What the shard is known to do under its lock: the contracts of `TableHashmapFallback.Get`
      and `TableHashmapFallback.GetOrInsert`, in a world where everything else goes on. */
  ghost predicate Allowed<D(!new)>(s: State<D>, c: Call<D>, hashOf: D -> nat, after: TableView, r: Option<nat>,
                                   runs: int)
    requires c.Inside? && |s.views| == N_SHARDS
  {
    var before := s.views[ShardOfCall(c, hashOf)];
    if c.insert then
      && r.Some? && Consistent(after, s.data, s.dead, hashOf)
      && Interned(NodesIn(before), NodesIn(after), s.data, s.dead, c.d, r.value, c.begun, runs)
    else
      after == before && runs == 0 && r == LiveNode(NodesIn(before), s.data, s.dead, c.d)
  }

  /** The code under the lock does what is allowed: one call on a shard, from the moment it has
      the lock, in the state `s` of all shards, with the nodes there are at the end. */
  method UnderLock<D(==,!new)>(shard: TableHashmapFallback<D>, w: World<D>, hash: nat, d: D, insert: bool,
                               ghost hashOf: D -> nat, ghost s: State<D>)
    returns (r: Option<nat>)
    requires shard.Valid(w, hashOf) && hash == hashOf(d)
    requires |s.views| == N_SHARDS && s.views[ShardOf(hash)] == shard.View()
    modifies shard, shard.fallback.Obj(), w
    ensures shard.Valid(w, hashOf) && w.Later(old(w.data), old(w.dead))
    ensures Allowed(s.(data := w.data, dead := w.dead), Inside(d, insert, old(|w.data|)), hashOf, shard.View(), r,
                    w.metaRuns - old(w.metaRuns))
  {
    ghost var before := shard.View();
    if insert {
      var n := shard.GetOrInsert(w, hash, d, hashOf);
      r := Some(n);
    } else {
      r := shard.Get(w, hash, d, hashOf);
      assert shard.View() == before;
    }
  }

  ghost predicate Enabled<D(!new)>(s: State<D>, t: nat, act: Action<D>, hashOf: D -> nat) {
    && t < |s.calls| && |s.views| == |s.locks| == N_SHARDS
    && match act
       case Start(_, _) => s.calls[t].Outside?
       case Lock => s.calls[t].Waiting? && s.locks[ShardOfCall(s.calls[t], hashOf)] == None
       case Finish(after, r, runs) => s.calls[t].Inside? && Allowed(s, s.calls[t], hashOf, after, r, runs)
       case Return => s.calls[t].Returned?
       case Elapse(births, deaths) => forall n :: n in deaths ==> n < |s.data| + |births|
  }

  ghost function Do<D(!new)>(s: State<D>, t: nat, act: Action<D>, hashOf: D -> nat): State<D>
    requires Enabled(s, t, act, hashOf)
  {
    match act
    case Start(d, insert) => s.(calls := s.calls[t := Waiting(d, insert)])
    case Lock =>
      var c := s.calls[t];
      s.(locks := s.locks[ShardOfCall(c, hashOf) := Some(t)], calls := s.calls[t := Inside(c.d, c.insert, |s.data|)])
    case Finish(after, r, _) =>
      var c := s.calls[t];
      var k := ShardOfCall(c, hashOf);
      s.(views := s.views[k := after], locks := s.locks[k := None], calls := s.calls[t := Returned(c.d, c.insert, r)])
    case Return => s.(calls := s.calls[t := Outside])
    case Elapse(births, deaths) => s.(data := s.data + births, dead := s.dead + deaths)
  }

  ghost function Run<D(!new)>(s: State<D>, schedule: seq<(nat, Action<D>)>, hashOf: D -> nat): State<D>
    decreases |schedule|
  {
    if schedule == [] then s
    else if Enabled(s, schedule[0].0, schedule[0].1, hashOf) then
      Run(Do(s, schedule[0].0, schedule[0].1, hashOf), schedule[1..], hashOf)
    else Run(s, schedule[1..], hashOf)
  }

  /** A run is its actions, one after the other. */
  lemma {:induction false} RunsStepByStep<D(!new)>(s: State<D>, schedule: seq<(nat, Action<D>)>, t: nat,
                                                  act: Action<D>, hashOf: D -> nat)
    ensures Run(s, schedule + [(t, act)], hashOf) ==
      var r := Run(s, schedule, hashOf); if Enabled(r, t, act, hashOf) then Do(r, t, act, hashOf) else r
    decreases |schedule|
  {
    if schedule == [] {
      assert schedule + [(t, act)] == [(t, act)] && [(t, act)][1..] == [];
    } else {
      var (u, first) := schedule[0];
      assert (schedule + [(t, act)])[1..] == schedule[1..] + [(t, act)];
      var next := if Enabled(s, u, first, hashOf) then Do(s, u, first, hashOf) else s;
      RunsStepByStep(next, schedule[1..], t, act, hashOf);
    }
  }

  /** A call that finds the lock of its shard free goes through: it waits, gets the lock, does
      what it is allowed to do and returns what came of it, with the lock free again and the
      other shards and calls as they were, whatever locks they hold. */
  lemma CallGoesThrough<D(!new)>(s: State<D>, t: nat, d: D, insert: bool, after: TableView, r: Option<nat>, runs: int,
                                 hashOf: D -> nat)
    requires t < |s.calls| && s.calls[t] == Outside && |s.views| == |s.locks| == N_SHARDS
    requires s.locks[ShardOf(hashOf(d))] == None
    requires Allowed(s, Inside(d, insert, |s.data|), hashOf, after, r, runs)
    ensures var k := ShardOf(hashOf(d));
      var waiting := Run(s, [(t, Start(d, insert))], hashOf);
      var inside := Run(waiting, [(t, Lock)], hashOf);
      var returned := Run(inside, [(t, Finish(after, r, runs))], hashOf);
      && waiting == s.(calls := s.calls[t := Waiting(d, insert)])
      && inside == s.(calls := s.calls[t := Inside(d, insert, |s.data|)], locks := s.locks[k := Some(t)])
      && returned == s.(calls := s.calls[t := Returned(d, insert, r)], views := s.views[k := after])
      && Run(returned, [(t, Return)], hashOf) == s.(views := s.views[k := after])
  {
    var waiting := s.(calls := s.calls[t := Waiting(d, insert)]);
    OneAction(s, t, Start(d, insert), hashOf);
    Locks(waiting, t, hashOf);
    var inside := Do(waiting, t, Lock, hashOf);
    assert inside.calls == s.calls[t := Inside(d, insert, |s.data|)];
    AllowedStays(s, inside, inside.calls[t], hashOf, after, r, runs);
    Finishes(inside, t, after, r, runs, hashOf);
    var returned := Do(inside, t, Finish(after, r, runs), hashOf);
    assert returned.calls == s.calls[t := Returned(d, insert, r)] && returned.locks == s.locks;
    OneAction(returned, t, Return, hashOf);
    assert Do(returned, t, Return, hashOf).calls == s.calls;
  }

  lemma Locks<D(!new)>(s: State<D>, t: nat, hashOf: D -> nat)
    requires t < |s.calls| && s.calls[t].Waiting? && |s.views| == |s.locks| == N_SHARDS
    requires s.locks[ShardOf(hashOf(s.calls[t].d))] == None
    ensures Run(s, [(t, Lock)], hashOf) ==
      s.(calls := s.calls[t := Inside(s.calls[t].d, s.calls[t].insert, |s.data|)],
         locks := s.locks[ShardOf(hashOf(s.calls[t].d)) := Some(t)])
  {
    OneAction(s, t, Lock, hashOf);
  }

  lemma Finishes<D(!new)>(s: State<D>, t: nat, after: TableView, r: Option<nat>, runs: int, hashOf: D -> nat)
    requires t < |s.calls| && s.calls[t].Inside? && |s.views| == |s.locks| == N_SHARDS
    requires Allowed(s, s.calls[t], hashOf, after, r, runs)
    ensures var k := ShardOf(hashOf(s.calls[t].d));
      Run(s, [(t, Finish(after, r, runs))], hashOf) ==
        s.(calls := s.calls[t := Returned(s.calls[t].d, s.calls[t].insert, r)], views := s.views[k := after],
           locks := s.locks[k := None])
  {
    OneAction(s, t, Finish(after, r, runs), hashOf);
  }

  lemma AllowedStays<D(!new)>(s: State<D>, s': State<D>, c: Call<D>, hashOf: D -> nat, after: TableView,
                              r: Option<nat>, runs: int)
    requires c.Inside? && |s.views| == N_SHARDS && Allowed(s, c, hashOf, after, r, runs)
    requires s'.views == s.views && s'.data == s.data && s'.dead == s.dead
    ensures Allowed(s', c, hashOf, after, r, runs)
  {
  }

  /** Nodes may be created, and die, whatever the calls are doing. */
  lemma TimePasses<D(!new)>(s: State<D>, t: nat, births: seq<D>, deaths: set<nat>, hashOf: D -> nat)
    requires t < |s.calls| && |s.views| == |s.locks| == N_SHARDS
    requires forall n :: n in deaths ==> n < |s.data| + |births|
    ensures Run(s, [(t, Elapse(births, deaths))], hashOf) == s.(data := s.data + births, dead := s.dead + deaths)
  {
    OneAction(s, t, Elapse(births, deaths), hashOf);
  }

  lemma OneAction<D(!new)>(s: State<D>, t: nat, act: Action<D>, hashOf: D -> nat)
    requires Enabled(s, t, act, hashOf)
    ensures Run(s, [(t, act)], hashOf) == Do(s, t, act, hashOf)
  {
    assert [] + [(t, act)] == [(t, act)];
    RunsStepByStep(s, [], t, act, hashOf);
  }

  /** The whole table. */
  function Whole<D>(s: State<D>): set<nat> {
    Union(Parts(s.views))
  }

  ghost function Init<D(!new)>(threads: nat): (s: State<D>)
    ensures |s.calls| == threads && forall t :: 0 <= t < threads ==> s.calls[t] == Outside
    ensures forall k :: 0 <= k < |s.locks| ==> s.locks[k] == None
  {
    State(seq(N_SHARDS, i => TableView(map[], [], false, PURGE_LEN_MIN, 0, 0, 0)), seq(N_SHARDS, i => None), [], {},
          seq(threads, i => Outside))
  }

  ghost predicate Inv<D(!new)>(s: State<D>, hashOf: D -> nat) {
    && |s.views| == |s.locks| == N_SHARDS && ShardsOk(s.views, s.data, s.dead, hashOf)
    && (forall t :: 0 <= t < |s.calls| ==> CallOk(s, t, hashOf))
  }

  /** A call inside a shard has the lock of the shard and nobody else does; what a call has
      returned is in the table as long as it is alive. */
  ghost predicate CallOk<D(!new)>(s: State<D>, t: nat, hashOf: D -> nat)
    requires t < |s.calls| && |s.locks| == N_SHARDS
  {
    match s.calls[t]
    case Inside(d, _, begun) => s.locks[ShardOf(hashOf(d))] == Some(t) && begun <= |s.data|
    case Returned(d, insert, r) =>
      && (insert ==> r.Some?)
      && (r.Some? && r.value !in s.dead ==> IsLive(r.value, Whole(s), s.data, s.dead, d))
    case _ => true
  }

  /** At most one live node per value in all shards together. */
  lemma WholeIsOneTable<D(!new)>(s: State<D>, hashOf: D -> nat)
    requires Inv(s, hashOf)
    ensures OneLive(Whole(s), s.data, s.dead)
  {
    forall i | 0 <= i < |s.views| ensures OneLive(Parts(s.views)[i], s.data, s.dead) {
      assert Consistent(s.views[i], s.data, s.dead, hashOf);
    }
    UnionLive(Parts(s.views), s.data, s.dead, hashOf);
  }

  /** Main theorem: whatever the other shards are in the middle of, a call takes effect on the
      whole table in one step, when it gives back its lock. */
  lemma CallsAreAtomic<D(!new)>(s: State<D>, t: nat, act: Action<D>, hashOf: D -> nat)
    requires Inv(s, hashOf) && Enabled(s, t, act, hashOf) && act.Finish?
    ensures var c, s' := s.calls[t], Do(s, t, act, hashOf);
      && ShardsOk(s'.views, s'.data, s'.dead, hashOf)
      && if c.insert then Interned(Whole(s), Whole(s'), s.data, s.dead, c.d, act.r.value, c.begun, act.runs)
         else Whole(s') == Whole(s) && act.r == LiveNode(Whole(s), s.data, s.dead, c.d)
  {
    var c := s.calls[t];
    if c.insert {
      WholeInterned(s.views, act.after, s.data, s.dead, s.data, s.dead, hashOf, c.d, act.r.value, c.begun, act.runs);
    } else {
      LookedUp(s.views, s.data, s.dead, hashOf, c.d);
      var k := ShardOfCall(c, hashOf);
      assert s.views[k := s.views[k]] == s.views;
    }
  }

  /** Every other step leaves the table alone. */
  lemma OtherStepsChangeNothing<D(!new)>(s: State<D>, t: nat, act: Action<D>, hashOf: D -> nat)
    requires Inv(s, hashOf) && Enabled(s, t, act, hashOf) && !act.Finish?
    ensures var s' := Do(s, t, act, hashOf);
      s'.views == s.views && s.data <= s'.data && s.dead <= s'.dead && ShardsOk(s'.views, s'.data, s'.dead, hashOf)
  {
    var s' := Do(s, t, act, hashOf);
    ShardsStay(s.views, s.data, s.dead, s'.data, s'.dead, hashOf);
  }

  lemma FinishCalls<D(!new)>(s: State<D>, t: nat, act: Action<D>, hashOf: D -> nat, u: nat)
    requires Inv(s, hashOf) && Enabled(s, t, act, hashOf) && act.Finish? && u < |s.calls|
    ensures CallOk(Do(s, t, act, hashOf), u, hashOf)
  {
    var s', c := Do(s, t, act, hashOf), s.calls[t];
    CallsAreAtomic(s, t, act, hashOf);
    WholeIsOneTable(s, hashOf);
    assert CallOk(s, t, hashOf) && CallOk(s, u, hashOf);
    if u == t && c.insert {
      AfterIsBefore(Whole(s), Whole(s'), s.data, s.dead, c.d, act.r.value, c.begun, act.runs, act.r.value);
    }
  }

  lemma StepInv<D(!new)>(s: State<D>, t: nat, act: Action<D>, hashOf: D -> nat)
    requires Inv(s, hashOf) && Enabled(s, t, act, hashOf)
    ensures Inv(Do(s, t, act, hashOf), hashOf)
  {
    var s' := Do(s, t, act, hashOf);
    if act.Finish? {
      CallsAreAtomic(s, t, act, hashOf);
    } else {
      OtherStepsChangeNothing(s, t, act, hashOf);
    }
    forall u | 0 <= u < |s'.calls| ensures CallOk(s', u, hashOf) {
      assert CallOk(s, u, hashOf);
      if act.Finish? { FinishCalls(s, t, act, hashOf, u); }
    }
  }

  lemma {:induction false} RunInv<D(!new)>(s: State<D>, schedule: seq<(nat, Action<D>)>, hashOf: D -> nat)
    requires Inv(s, hashOf)
    ensures Inv(Run(s, schedule, hashOf), hashOf)
    decreases |schedule|
  {
    if schedule != [] {
      var (t, act) := schedule[0];
      if Enabled(s, t, act, hashOf) {
        StepInv(s, t, act, hashOf);
        RunInv(Do(s, t, act, hashOf), schedule[1..], hashOf);
      } else {
        RunInv(s, schedule[1..], hashOf);
      }
    }
  }

  lemma InitInv<D(!new)>(threads: nat, hashOf: D -> nat)
    ensures Inv(Init<D>(threads), hashOf)
  {
  }

  /** Two calls inside one shard are one call. */
  ghost predicate Excluded<D(!new)>(c: Call<D>, e: Call<D>, t: nat, u: nat, hashOf: D -> nat) {
    c.Inside? && e.Inside? && ShardOfCall(c, hashOf) == ShardOfCall(e, hashOf) ==> t == u
  }

  /** Two calls that got nodes for equal data, both alive, got the same node. */
  ghost predicate Agree<D(!new)>(c: Call<D>, e: Call<D>, dead: set<nat>) {
    c.Returned? && e.Returned? && c.d == e.d && c.r.Some? && e.r.Some? && c.r.value !in dead && e.r.value !in dead ==>
      c.r == e.r
  }

  /** In every reachable state, with calls on any shards under way: at most one live node per
      value in the whole table, at most one call inside each shard, and callers that got a node
      for equal data got the same one, as long as it is alive. */
  lemma EightLocksOneTable<D(!new)>(threads: nat, schedule: seq<(nat, Action<D>)>, hashOf: D -> nat)
    ensures var s := Run(Init<D>(threads), schedule, hashOf);
      && OneLive(Whole(s), s.data, s.dead)
      && (forall t, u :: 0 <= t < |s.calls| && 0 <= u < |s.calls| ==> Excluded(s.calls[t], s.calls[u], t, u, hashOf))
      && (forall t, u :: 0 <= t < |s.calls| && 0 <= u < |s.calls| ==> Agree(s.calls[t], s.calls[u], s.dead))
  {
    InitInv(threads, hashOf);
    RunInv(Init<D>(threads), schedule, hashOf);
    var s := Run(Init<D>(threads), schedule, hashOf);
    WholeIsOneTable(s, hashOf);
    forall t, u | 0 <= t < |s.calls| && 0 <= u < |s.calls|
      ensures Excluded(s.calls[t], s.calls[u], t, u, hashOf) && Agree(s.calls[t], s.calls[u], s.dead)
    {
      assert CallOk(s, t, hashOf) && CallOk(s, u, hashOf);
    }
  }
}
