/** What interning guarantees about every reachable heap, and the heap as one thread sees it. */
module DagTheorems {
  import opened Basics
  import opened Fields
  import opened Graph
  import opened Metadata
  import opened Dag
  import TableSpec

  lemma InitInv(threads: nat, own: Struct<Hole> -> Flags)
    ensures Inv(Init(threads, own))
  {
  }

  lemma {:induction false} RunInv(h: Heap, schedule: seq<(nat, Action)>)
    requires Inv(h)
    ensures Inv(Run(h, schedule)) && h.data <= Run(h, schedule).data && Run(h, schedule).own == h.own
    decreases |schedule|
  {
    if schedule != [] {
      if Enabled(h, schedule[0].0, schedule[0].1) {
        StepInv(h, schedule[0].0, schedule[0].1);
        RunInv(Do(h, schedule[0].0, schedule[0].1), schedule[1..]);
      } else {
        RunInv(h, schedule[1..]);
      }
    }
  }

  // ---------------------------------------------------------------- equality

  lemma AliveDistinct(h: Heap)
    requires GraphOk(h)
    ensures Distinct(h.data, Alive(h))
  {
  }

  /** Main theorem of hash-consing: in every reachable state two nodes that are alive are the
      same allocation if and only if they unfold to the same tree, and every handle of
      every thread is to such a node. */
  lemma PointerEqualityIsDeep(threads: nat, own: Struct<Hole> -> Flags, schedule: seq<(nat, Action)>)
    ensures var h := Run(Init(threads, own), schedule);
      && IsGraph(h.data)
      && (forall t, n :: 0 <= t < |h.threads| && n in h.threads[t].held ==> n in Alive(h))
      && (forall m, n :: m in Alive(h) && n in Alive(h) ==>
            m < |h.data| && n < |h.data| && (m == n <==> Unfold(h.data, m) == Unfold(h.data, n)))
  {
    InitInv(threads, own);
    RunInv(Init(threads, own), schedule);
    var h := Run(Init(threads, own), schedule);
    forall t, n | 0 <= t < |h.threads| && n in h.threads[t].held ensures n in Alive(h) {
      assert ThreadOk(h, t);
    }
    forall m, n | m in Alive(h) && n in Alive(h)
      ensures m < |h.data| && n < |h.data| && (m == n <==> Unfold(h.data, m) == Unfold(h.data, n))
    {
      SameNode(h, m, n);
    }
  }

  lemma SameNode(h: Heap, m: nat, n: nat)
    requires GraphOk(h) && m in Alive(h) && n in Alive(h)
    ensures m < |h.data| && n < |h.data| && (m == n <==> Unfold(h.data, m) == Unfold(h.data, n))
  {
    AliveDistinct(h);
    UnfoldInjective(h.data, Alive(h), m, n);
  }

  ghost function Dead(h: Heap): set<nat> {
    set n | 0 <= n < |h.data| && n !in h.live
  }

  /** The heap assumes of its tables what is proved of them: at most one live node per value,
      and a lookup that finds it. */
  lemma LookupMeetsTableSpec(h: Heap, d: Struct<nat>)
    requires GraphOk(h)
    ensures TableSpec.OneLive(h.interned, h.data, Dead(h))
    ensures TableSpec.LiveNode(h.interned, h.data, Dead(h), d) == Find(h, d, |h.data|)
  {
    match Find(h, d, |h.data|)
    case Some(n) =>
      TableSpec.LiveNodeIs(h.interned, h.data, Dead(h), n);
    case None =>
      assert forall n :: TableSpec.IsLive(n, h.interned, h.data, Dead(h), d) ==> n in Alive(h);
  }

  /** While a node is alive, nobody gets another one for equal data. A lookup made then
      allocates nothing and takes no ID; a call that is past its lookup and has built a node
      of its own throws it away. Either way the handle is to the node that is alive. */
  lemma LiveNodeIsReturned(h: Heap, t: nat, act: Action, n: nat)
    requires GraphOk(h) && Enabled(h, t, act) && n in Alive(h)
    requires (act.Lookup? && act.d == h.data[n]) || (act.Publish? && h.data[h.threads[t].call.n] == h.data[n])
    ensures var h' := Do(h, t, act);
      && h'.threads[t] == Thread(h.threads[t].held + {n}, NoCall)
      && h'.data == h.data && h'.counter == h.counter && h'.interned == h.interned
      && h'.live == if act.Publish? then h.live - {h.threads[t].call.n} else h.live
  {
    var d := if act.Lookup? then act.d else h.data[h.threads[t].call.n];
    assert Find(h, d, |h.data|).Some?;
    assert Find(h, d, |h.data|).value == n;
  }

  /** Publishing is interning as the tables specify it: it finds the live node of that data,
      or the node just built becomes it; no other data is affected. */
  lemma PublishMeetsTableSpec(h: Heap, t: nat)
    requires GraphOk(h) && Enabled(h, t, Publish) && ThreadOk(h, t)
    ensures var h', n := Do(h, t, Publish), h.threads[t].call.n;
      match Find(h, h.data[n], |h.data|)
      case Some(r) => TableSpec.Interned(h.interned, h'.interned, h'.data, Dead(h'), h.data[n], r, |h.data|, 0)
      case None => TableSpec.Interned(h.interned, h'.interned, h'.data, Dead(h'), h.data[n], n, n, 1)
  {
    var h', n := Do(h, t, Publish), h.threads[t].call.n;
    LookupMeetsTableSpec(h, h.data[n]);
    match Find(h, h.data[n], |h.data|)
    case Some(r) =>
      TableSpec.FoundInterned(h.interned, h'.interned, h'.data, Dead(h'), h.data[n], r, |h.data|);
    case None =>
      TableSpec.FreshInterned(h.interned, h'.interned, h'.data, Dead(h'), h.data[n], n, n);
  }

  /** What the hash function of a struct gets to see: creation IDs in place of references. */
  function Hashed(ids: seq<nat>, d: Struct<nat>): Struct<nat>
    requires forall r :: r in Refs(d.fields) ==> r < |ids|
  {
    ShapesRefs(d.fields);
    Struct(d.ty, Fill(Shapes(d.fields), IdsOf(ids, Refs(d.fields))))
  }

  function IdsOf(ids: seq<nat>, rs: seq<nat>): seq<nat>
    requires forall r :: r in rs ==> r < |ids|
  {
    seq(|rs|, i requires 0 <= i < |rs| => assert rs[i] in rs; ids[rs[i]])
  }

  /** Hashing references by ID throws nothing away: equal data is hashed from equal input,
      and different data from different input. */
  lemma HashingByIdIsFaithful(h: Heap, d: Struct<nat>, e: Struct<nat>)
    requires IdsOk(h) && forall r :: r in Refs(d.fields) || r in Refs(e.fields) ==> r < |h.ids|
    ensures Hashed(h.ids, d) == Hashed(h.ids, e) <==> d == e
  {
    if Hashed(h.ids, d) == Hashed(h.ids, e) {
      ShapesRefs(d.fields);
      ShapesRefs(e.fields);
      var rs, qs := Refs(d.fields), Refs(e.fields);
      FillShape(Shapes(d.fields), IdsOf(h.ids, rs));
      FillShape(Shapes(e.fields), IdsOf(h.ids, qs));
      assert IdsOf(h.ids, rs) == IdsOf(h.ids, qs);
      forall i | 0 <= i < |rs| ensures rs[i] == qs[i] {
        assert IdsOf(h.ids, rs)[i] == IdsOf(h.ids, qs)[i];
        assert rs[i] in rs && qs[i] in qs;
      }
      assert rs == qs;
      SameStruct(d, e);
    }
  }

  /** And it is IDs that are hashed: same struct, and for each reference the ID of its node. */
  lemma HashSeesIds(ids: seq<nat>, d: Struct<nat>)
    requires forall r :: r in Refs(d.fields) ==> r < |ids|
    ensures var hashed := Hashed(ids, d);
      && Shape(hashed) == Shape(d) && |Refs(hashed.fields)| == |Refs(d.fields)|
      && forall i :: 0 <= i < |Refs(d.fields)| ==>
           Refs(d.fields)[i] < |ids| && Refs(hashed.fields)[i] == ids[Refs(d.fields)[i]]
  {
    ShapesRefs(d.fields);
    FillShape(Shapes(d.fields), IdsOf(ids, Refs(d.fields)));
    assert Refs(Hashed(ids, d).fields) == IdsOf(ids, Refs(d.fields));
    assert forall i :: 0 <= i < |Refs(d.fields)| ==> Refs(d.fields)[i] in Refs(d.fields);
  }

  // ---------------------------------------------------------------- order

  datatype Ordering = Less | Equal | Greater

  /** `Ord::cmp` of references. */
  function Cmp(h: Heap, a: nat, b: nat): Ordering
    requires a < |h.ids| && b < |h.ids|
  {
    if a == b then Equal else if h.ids[a] < h.ids[b] then Less else if h.ids[a] == h.ids[b] then Equal else Greater
  }

  /** `b` is somewhere below `a`. */
  ghost predicate DependsOn(data: seq<Struct<nat>>, a: nat, b: nat)
    requires IsGraph(data) && a < |data|
    decreases a
  {
    exists r :: r in Kids(data, a) && r < a && (r == b || DependsOn(data, r, b))
  }

  /** `cmp` is a total order, agrees with `==`, and puts every node after all it depends on;
      so nothing depends on itself. Nodes that were thrown away after losing a race are
      among those it holds for. */
  lemma CmpOrdersDependencies(threads: nat, own: Struct<Hole> -> Flags, schedule: seq<(nat, Action)>, a: nat, b: nat,
                              c: nat)
    requires var h := Run(Init(threads, own), schedule); a < |h.data| && b < |h.data| && c < |h.data|
    ensures var h := Run(Init(threads, own), schedule);
      && |h.ids| == |h.data| && IsGraph(h.data)
      && (Cmp(h, a, b) == Equal <==> a == b)
      && (Cmp(h, a, b) == Less <==> Cmp(h, b, a) == Greater)
      && (Cmp(h, a, b) == Less && Cmp(h, b, c) == Less ==> Cmp(h, a, c) == Less)
      && (DependsOn(h.data, a, b) ==> Cmp(h, b, a) == Less)
      && !DependsOn(h.data, a, a)
  {
    InitInv(threads, own);
    RunInv(Init(threads, own), schedule);
    var h := Run(Init(threads, own), schedule);
    if DependsOn(h.data, a, b) { DependsLess(h, a, b); }
    if DependsOn(h.data, a, a) { DependsLess(h, a, a); }
  }

  lemma {:induction false} DependsLess(h: Heap, a: nat, b: nat)
    requires GraphOk(h) && IdsOk(h) && a < |h.data| && DependsOn(h.data, a, b)
    ensures b < |h.ids| && h.ids[b] < h.ids[a]
    decreases a
  {
    var r :| r in Kids(h.data, a) && r < a && (r == b || DependsOn(h.data, r, b));
    assert LaterThan(h, h.data[a], h.ids[a]);
    if r != b { DependsLess(h, r, b); }
  }

  /** Nothing keeps itself alive: once no thread holds a handle or is inside a call, whatever
      is still alive includes a node that nothing refers to, and that can go. */
  lemma NothingLeaks(h: Heap, t: nat) returns (n: nat)
    requires Inv(h) && t < |h.threads| && h.live != {}
    requires forall u :: 0 <= u < |h.threads| ==> h.threads[u] == Thread({}, NoCall)
    ensures Enabled(h, t, Die(n)) && Do(h, t, Die(n)).live < h.live
  {
    n := Largest(h.live);
    forall p | p in h.live ensures n !in Kids(h.data, p) {
      if n in Kids(h.data, p) { KidsBackward(h.data, p, n); }
    }
  }

  lemma {:induction false} Largest(s: set<nat>) returns (n: nat)
    requires s != {}
    ensures n in s && forall m :: m in s ==> m <= n
    decreases |s|
  {
    var x :| x in s;
    n := x;
    if s != {x} {
      var rest := s - {x};
      assert s == rest + {x};
      var k := Largest(rest);
      if x < k { n := k; }
    }
  }

  // ---------------------------------------------------------------- metadata

  /** In every reachable state the metadata cached in a node is that of its whole unfolding,
      clamped once, although sums saturate at every level on the way. */
  lemma CachedMetadataIsExact(threads: nat, own: Struct<Hole> -> Flags, schedule: seq<(nat, Action)>, n: nat)
    requires n < |Run(Init(threads, own), schedule).data|
    ensures var h := Run(Init(threads, own), schedule);
      && |h.metas| == |h.data| && IsGraph(h.data)
      && var exact := TreeExact(own, Unfold(h.data, n));
         && h.metas[n].count == Min(0xFFFF_FFFF, exact.count)
         && h.metas[n].height == Min(0xFFFF, exact.height)
         && h.metas[n].flags == exact.flags
  {
    InitInv(threads, own);
    RunInv(Init(threads, own), schedule);
  }
}

/** One thread at work on the heap while all the others do what they like. */
module Runtime {
  import opened Fields
  import opened Graph
  import opened Dag

  /** What the others do, and which nodes die. */
  function RunOthers(h: Heap, me: nat, schedule: seq<(nat, Action)>): Heap
    decreases |schedule|
  {
    if schedule == [] then h
    else if Enabled(h, schedule[0].0, schedule[0].1) && (schedule[0].0 != me || schedule[0].1.Die?) then
      RunOthers(Do(h, schedule[0].0, schedule[0].1), me, schedule[1..])
    else RunOthers(h, me, schedule[1..])
  }

  /** The others are as free as in any run: all that is left out is what `me` would do. */
  lemma {:induction false} OthersRunFreely(h: Heap, me: nat, schedule: seq<(nat, Action)>)
    requires forall i :: 0 <= i < |schedule| ==> schedule[i].0 != me || schedule[i].1.Die?
    ensures RunOthers(h, me, schedule) == Run(h, schedule)
    decreases |schedule|
  {
    if schedule != [] {
      var (t, act) := schedule[0];
      assert t != me || act.Die?;
      OthersRunFreely(if Enabled(h, t, act) then Do(h, t, act) else h, me, schedule[1..]);
    }
  }

  ghost predicate Undisturbed(h: Heap, h': Heap, me: nat) {
    && me < |h.threads| == |h'.threads|
    && h.data <= h'.data && h'.own == h.own
    && h.threads[me].held <= h'.threads[me].held && h'.threads[me].call == h.threads[me].call
  }

  lemma {:induction false} OthersKeep(h: Heap, me: nat, schedule: seq<(nat, Action)>)
    requires Inv(h) && me < |h.threads|
    ensures Inv(RunOthers(h, me, schedule)) && Undisturbed(h, RunOthers(h, me, schedule), me)
    decreases |schedule|
  {
    if schedule != [] {
      var (t, act) := schedule[0];
      if Enabled(h, t, act) && (t != me || act.Die?) {
        StepInv(h, t, act);
        StepUndisturbed(h, t, act, me);
        OthersKeep(Do(h, t, act), me, schedule[1..]);
      } else {
        OthersKeep(h, me, schedule[1..]);
      }
    }
  }

  lemma StepUndisturbed(h: Heap, t: nat, act: Action, me: nat)
    requires Inv(h) && me < |h.threads| && Enabled(h, t, act) && (t != me || act.Die?)
    ensures Undisturbed(h, Do(h, t, act), me)
  {
  }

  class Runtime {
    var h: Heap
    const me: nat
    const others: nat -> seq<(nat, Action)>
    var clock: nat
    // History: calls of `Intern` so far.
    ghost var interns: nat

    constructor (h: Heap, me: nat, others: nat -> seq<(nat, Action)>)
      requires Inv(h) && me < |h.threads| && h.threads[me].call.NoCall?
      ensures Valid() && this.h == h && this.me == me && this.others == others && interns == 0
    {
      this.h, this.me, this.others, clock, interns := h, me, others, 0, 0;
    }

    ghost predicate Valid() reads this {
      Inv(h) && me < |h.threads| && h.threads[me].call.NoCall?
    }

    ghost function Mine(): set<nat> reads this {
      if me < |h.threads| then h.threads[me].held else {}
    }

    /** What is left of an earlier state: no node changed and nothing of ours was taken. */
    ghost predicate Since(data0: seq<Struct<nat>>, mine0: set<nat>) reads this {
      Valid() && data0 <= h.data && mine0 <= Mine()
    }

    method Elapse()
      requires Inv(h) && me < |h.threads|
      modifies this
      ensures h == RunOthers(old(h), me, others(old(clock))) && clock == old(clock) + 1 && interns == old(interns)
      ensures Inv(h) && Undisturbed(old(h), h, me)
    {
      OthersKeep(h, me, others(clock));
      h := RunOthers(h, me, others(clock));
      clock := clock + 1;
    }

    /** `hirpdag_hashcons`. What comes out has the data that went in; which node that is, is
        decided by the theorems above. */
    method Intern(d: Struct<nat>) returns (n: nat)
      requires Valid() && Holds(h, me, d)
      modifies this
      ensures Since(old(h.data), old(Mine()))
      ensures n in Mine() && n < |h.data| && h.data[n] == d
      ensures interns == old(interns) + 1
    {
      interns := interns + 1;
      Elapse();
      StepInv(h, me, Lookup(d));
      var found := Find(h, d, |h.data|);
      h := Do(h, me, Lookup(d));
      if found.Some? {
        n := found.value;
      } else {
        n := Create(d);
      }
    }

    /** The rest of `hirpdag_hashcons` after a vain lookup. */
    method Create(d: Struct<nat>) returns (n: nat)
      requires Inv(h) && me < |h.threads| && h.threads[me].call == Missed(d)
      modifies this
      ensures Since(old(h.data), old(Mine()))
      ensures n in Mine() && n < |h.data| && h.data[n] == d && interns == old(interns)
    {
      var node := Build(d);
      Elapse();
      assert ThreadOk(h, me);
      StepInv(h, me, Publish);
      var found := Find(h, d, |h.data|);
      h := Do(h, me, Publish);
      n := if found.Some? then found.value else node;
    }

    /** `creation_meta` and the allocation. */
    method Build(d: Struct<nat>) returns (n: nat)
      requires Inv(h) && me < |h.threads| && h.threads[me].call == Missed(d)
      modifies this
      ensures Inv(h) && me < |h.threads| && h.threads[me].call == Built(n)
      ensures old(h.data) <= h.data && old(Mine()) <= Mine() && n < |h.data| && h.data[n] == d
      ensures interns == old(interns)
    {
      Elapse();
      StepInv(h, me, Reserve);
      h := Do(h, me, Reserve);
      Elapse();
      StepInv(h, me, Allocate);
      n := |h.data|;
      h := Do(h, me, Allocate);
    }

    /** Cloning a reference out of a node we hold. */
    method CloneFrom(p: nat, n: nat)
      requires Valid() && p in Mine() && p < |h.data| && n in Kids(h.data, p)
      modifies this
      ensures Since(old(h.data), old(Mine())) && n in Mine() && interns == old(interns)
    {
      StepInv(h, me, Clone(n));
      h := Do(h, me, Clone(n));
    }
  }
}
