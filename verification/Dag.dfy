/** The heap of interned nodes as a machine: any number of threads look up, build, publish,
    clone, drop and hand around nodes of any type, and nodes nobody refers to die
    (hirpdag/src/base/reference.rs, and the constructors generated by
    hirpdag_derive/src/lib.rs). */
module Dag {
  import opened Basics
  import opened Fields
  import opened Graph
  import opened Metadata

  /** Inside `hirpdag_hashcons`: the lookup missed; `creation_meta` has run; the node is
      allocated but not in the table yet. */
  datatype Call =
    | NoCall
    | Missed(d: Struct<nat>)
    | Reserved(d: Struct<nat>, id: nat, meta: Meta)
    | Built(n: nat)

  /** `held` are the nodes the thread has at least one handle to. */
  datatype Thread = Thread(held: set<nat>, call: Call)

  /** Nodes are numbered as they are allocated, and stand for their addresses; numbers of dead
      nodes are not used again, so that `==` on nodes is pointer equality of nodes that are
      alive. `interned` are the nodes ever published in a table. `own` is `hirpdag_flags`. */
  datatype Heap = Heap(data: seq<Struct<nat>>, ids: seq<nat>, metas: seq<Meta>, live: set<nat>, interned: set<nat>,
                       counter: nat, threads: seq<Thread>, own: Struct<Hole> -> Flags)

  datatype Action =
    | Lookup(d: Struct<nat>)
    | Reserve
    | Allocate
    | Publish
    | Clone(n: nat)
    | Drop(n: nat)
    | Send(n: nat, to: nat)
    | Die(n: nat)

  /** Nodes a lookup can find. */
  function Alive(h: Heap): set<nat> {
    h.live * h.interned
  }

  /** What the table of the type finds: a live node whose data is the same, references
      compared by pointer. */
  function Find(h: Heap, d: Struct<nat>, below: nat): (r: Option<nat>)
    requires below <= |h.data|
    ensures r.Some? ==> r.value < below && r.value in Alive(h) && h.data[r.value] == d
    ensures r.None? ==> forall n :: n in Alive(h) && n < below ==> h.data[n] != d
  {
    if below == 0 then None
    else if below - 1 in Alive(h) && h.data[below - 1] == d then Some(below - 1)
    else Find(h, d, below - 1)
  }

  /** The thread holds the references in `d`, and they are of the types the struct asks for. */
  predicate Holds(h: Heap, t: nat, d: Struct<nat>)
    requires t < |h.threads|
  {
    && Backward(h.data, d, |h.data|)
    && forall r | r in Refs(d.fields) :: r in h.threads[t].held
  }

  predicate Enabled(h: Heap, t: nat, act: Action) {
    && t < |h.threads|
    && var th := h.threads[t];
    && match act
       case Lookup(d) => th.call.NoCall? && Holds(h, t, d)
       case Reserve => th.call.Missed?
       case Allocate => th.call.Reserved?
       case Publish => th.call.Built? && th.call.n < |h.data|
       case Clone(n) => th.call.NoCall? && exists p | p in th.held :: p < |h.data| && n in Kids(h.data, p)
       case Drop(n) => th.call.NoCall?
       case Send(n, to) => th.call.NoCall? && n in th.held && to < |h.threads|
       case Die(n) =>
         && n in h.live
         && (forall u | 0 <= u < |h.threads| :: n !in h.threads[u].held && h.threads[u].call != Built(n))
         && (forall p | p in h.live :: p < |h.data| && n !in Kids(h.data, p))
  }

  function Do(h: Heap, t: nat, act: Action): Heap
    requires Enabled(h, t, act)
  {
    var th := h.threads[t];
    match act
    case Lookup(d) =>
      (match Find(h, d, |h.data|)
       case Some(n) => SetThread(h, t, Thread(th.held + {n}, NoCall))
       case None => SetThread(h, t, th.(call := Missed(d))))
    case Reserve =>
      SetThread(h, t, th.(call := Reserved(th.call.d, h.counter, MetaOf(h, th.call.d)))).(counter := h.counter + 1)
    case Allocate =>
      SetThread(h, t, th.(call := Built(|h.data|)))
        .(data := h.data + [th.call.d], ids := h.ids + [th.call.id], metas := h.metas + [th.call.meta],
          live := h.live + {|h.data|})
    case Publish =>
      (match Find(h, h.data[th.call.n], |h.data|)
       case Some(n) => SetThread(h, t, Thread(th.held + {n}, NoCall)).(live := h.live - {th.call.n})
       case None => SetThread(h, t, Thread(th.held + {th.call.n}, NoCall)).(interned := h.interned + {th.call.n}))
    case Clone(n) => SetThread(h, t, th.(held := th.held + {n}))
    case Drop(n) => SetThread(h, t, th.(held := th.held - {n}))
    case Send(n, to) => SetThread(h, to, h.threads[to].(held := h.threads[to].held + {n}))
    case Die(n) => h.(live := h.live - {n})
  }

  function SetThread(h: Heap, t: nat, th: Thread): Heap
    requires t < |h.threads|
  {
    h.(threads := h.threads[t := th])
  }

  /** `hirpdag_compute_meta`, reading the metadata cached in the referenced nodes. */
  function MetaOf(h: Heap, d: Struct<nat>): Meta {
    StructMeta(WithMetas(h.metas, d), h.own(Shape(d)))
  }

  function WithMetas(metas: seq<Meta>, d: Struct<nat>): Struct<Meta> {
    ShapesRefs(d.fields);
    Struct(d.ty, Fill(Shapes(d.fields), MetasOf(metas, Refs(d.fields))))
  }

  function MetasOf(metas: seq<Meta>, rs: seq<nat>): seq<Meta> {
    seq(|rs|, i requires 0 <= i < |rs| => if rs[i] < |metas| then metas[rs[i]] else ZERO)
  }

  /** Entries of a schedule that are not possible when their turn comes are skipped. */
  function Run(h: Heap, schedule: seq<(nat, Action)>): Heap
    decreases |schedule|
  {
    if schedule == [] then h
    else if Enabled(h, schedule[0].0, schedule[0].1) then Run(Do(h, schedule[0].0, schedule[0].1), schedule[1..])
    else Run(h, schedule[1..])
  }

  function Init(threads: nat, own: Struct<Hole> -> Flags): (h: Heap)
    ensures h.own == own && |h.threads| == threads && forall t :: 0 <= t < threads ==> h.threads[t].call == NoCall
  {
    Heap([], [], [], {}, {}, 1, seq(threads, i => Thread({}, NoCall)), own)
  }

  // ---------------------------------------------------------------- the invariant

  /** Nodes refer to nodes allocated earlier, and what is alive keeps what it refers to
      alive and findable; no two findable nodes have the same data. */
  ghost predicate GraphOk(h: Heap) {
    && IsGraph(h.data) && |h.ids| == |h.metas| == |h.data|
    && (forall n :: n in h.live || n in h.interned ==> n < |h.data|)
    && (forall n, r :: n in h.live && r in Kids(h.data, n) ==> r in Alive(h))
    && (forall m, n :: m in Alive(h) && n in Alive(h) && h.data[m] == h.data[n] ==> m == n)
  }

  /** A node has a larger ID than the nodes it refers to, and no ID is used twice. */
  ghost predicate IdsOk(h: Heap) {
    && |h.ids| == |h.data|
    && (forall n :: 0 <= n < |h.data| ==> h.ids[n] < h.counter && LaterThan(h, h.data[n], h.ids[n]))
    && (forall m, n :: 0 <= m < n < |h.data| ==> h.ids[m] != h.ids[n])
    && (forall t :: 0 <= t < |h.threads| && h.threads[t].call.Reserved? ==>
          h.threads[t].call.id < h.counter && LaterThan(h, h.threads[t].call.d, h.threads[t].call.id))
    && (forall t, n :: 0 <= t < |h.threads| && h.threads[t].call.Reserved? && 0 <= n < |h.data| ==>
      h.threads[t].call.id != h.ids[n])
    && (forall t, u :: 0 <= t < u < |h.threads| && h.threads[t].call.Reserved? && h.threads[u].call.Reserved? ==>
          h.threads[t].call.id != h.threads[u].call.id)
  }

  ghost predicate LaterThan(h: Heap, d: Struct<nat>, id: nat) {
    forall r :: r in Refs(d.fields) && r < |h.ids| ==> h.ids[r] < id
  }

  ghost predicate MetasOk(h: Heap)
    requires IsGraph(h.data) && |h.metas| == |h.data|
  {
    forall n :: 0 <= n < |h.data| ==> h.metas[n] == Clamp(TreeExact(h.own, Unfold(h.data, n)))
  }

  ghost predicate ThreadOk(h: Heap, t: nat)
    requires t < |h.threads|
  {
    && h.threads[t].held <= Alive(h)
    && match h.threads[t].call
       case NoCall => true
       case Missed(d) => Holds(h, t, d)
       case Reserved(d, _, meta) => Holds(h, t, d) && meta == MetaOf(h, d)
       case Built(n) => n in h.live && n !in h.interned
  }

  ghost predicate BuiltOnce(h: Heap) {
    forall t, u :: 0 <= t < u < |h.threads| && h.threads[t].call.Built? ==> h.threads[t].call != h.threads[u].call
  }

  ghost predicate Inv(h: Heap) {
    && GraphOk(h) && IdsOk(h) && MetasOk(h) && BuiltOnce(h)
    && (forall t :: 0 <= t < |h.threads| ==> ThreadOk(h, t))
  }

  // ---------------------------------------------------------------- every step keeps it

  lemma StepGraph(h: Heap, t: nat, act: Action)
    requires Inv(h) && Enabled(h, t, act)
    ensures GraphOk(Do(h, t, act))
  {
    assert ThreadOk(h, t);
    if act.Allocate? {
      AllocateGraph(h, t);
    } else if act.Publish? {
      PublishGraph(h, t);
    } else if act.Die? {
      DieGraph(h, Do(h, t, act), act.n);
    } else {
      SameGraph(h, Do(h, t, act));
    }
  }

  lemma SameGraph(h: Heap, h': Heap)
    requires GraphOk(h) && h'.data == h.data && h'.interned == h.interned && h'.live == h.live
    requires h'.ids == h.ids && h'.metas == h.metas
    ensures GraphOk(h')
  {
  }

  lemma DieGraph(h: Heap, h': Heap, n: nat)
    requires GraphOk(h) && h'.data == h.data && h'.interned == h.interned && h'.live == h.live - {n}
    requires h'.ids == h.ids && h'.metas == h.metas
    requires forall p :: p in h.live ==> n !in Kids(h.data, p)
    ensures GraphOk(h')
  {
    forall p, r | p in h'.live && r in Kids(h'.data, p) ensures r in Alive(h') {
      assert r in Alive(h) && r != n;
    }
  }

  lemma AllocateGraph(h: Heap, t: nat)
    requires GraphOk(h) && Enabled(h, t, Allocate) && ThreadOk(h, t)
    ensures GraphOk(Do(h, t, Allocate))
  {
    var h', d, n := Do(h, t, Allocate), h.threads[t].call.d, |h.data|;
    GraphSnoc(h.data, d);
    assert Alive(h') == Alive(h);
    assert forall m :: m in Alive(h) ==> h'.data[m] == h.data[m];
    forall m, r | m in h'.live && r in Kids(h'.data, m) ensures r in Alive(h') {
      if m == n { assert r in Refs(d.fields); } else { assert r in Kids(h.data, m); }
    }
  }

  lemma PublishGraph(h: Heap, t: nat)
    requires GraphOk(h) && Enabled(h, t, Publish) && ThreadOk(h, t)
    ensures GraphOk(Do(h, t, Publish))
  {
    var h', n := Do(h, t, Publish), h.threads[t].call.n;
    if Find(h, h.data[n], |h.data|).Some? {
      DieGraph(h, h', n);
    } else {
      JoinGraph(h, h', n);
    }
  }

  lemma JoinGraph(h: Heap, h': Heap, n: nat)
    requires GraphOk(h) && h'.data == h.data && h'.live == h.live && h'.interned == h.interned + {n}
    requires h'.ids == h.ids && h'.metas == h.metas && n in h.live
    requires forall m :: m in Alive(h) ==> h.data[m] != h.data[n]
    ensures GraphOk(h')
  {
    assert Alive(h') == Alive(h) + {n};
  }

  lemma StepIds(h: Heap, t: nat, act: Action)
    requires Inv(h) && Enabled(h, t, act)
    ensures IdsOk(Do(h, t, act))
  {
    assert ThreadOk(h, t);
    var h' := Do(h, t, act);
    if act.Reserve? {
      ReserveIds(h, t);
    } else if act.Allocate? {
      AllocateIds(h, t);
    } else {
      SameIds(h, h');
    }
  }

  lemma SameIds(h: Heap, h': Heap)
    requires IdsOk(h) && h'.data == h.data && h'.ids == h.ids && h'.counter == h.counter && |h'.threads| == |h.threads|
    requires forall u :: 0 <= u < |h.threads| && h'.threads[u].call.Reserved? ==>
      h'.threads[u].call == h.threads[u].call
    ensures IdsOk(h')
  {
    assert forall d, id :: LaterThan(h', d, id) == LaterThan(h, d, id);
  }

  lemma ReserveIds(h: Heap, t: nat)
    requires IdsOk(h) && Enabled(h, t, Reserve) && ThreadOk(h, t)
    ensures IdsOk(Do(h, t, Reserve))
  {
    var h' := Do(h, t, Reserve);
    assert forall u :: 0 <= u < |h.threads| && u != t ==> h'.threads[u] == h.threads[u];
    assert LaterThan(h', h.threads[t].call.d, h.counter);
  }

  lemma AllocateIds(h: Heap, t: nat)
    requires IdsOk(h) && IsGraph(h.data) && Enabled(h, t, Allocate) && ThreadOk(h, t)
    requires forall u :: 0 <= u < |h.threads| ==> ThreadOk(h, u)
    ensures IdsOk(Do(h, t, Allocate))
  {
    var h' := Do(h, t, Allocate);
    forall n | 0 <= n < |h'.data| ensures h'.ids[n] < h'.counter && LaterThan(h', h'.data[n], h'.ids[n]) {
      if n < |h.data| {
        LaterStays(h, h', h.data[n], h.ids[n], n);
      } else {
        LaterStays(h, h', h.threads[t].call.d, h.threads[t].call.id, n);
      }
    }
    forall u | 0 <= u < |h.threads| && h'.threads[u].call.Reserved?
      ensures LaterThan(h', h'.threads[u].call.d, h'.threads[u].call.id)
    {
      assert ThreadOk(h, u);
      LaterStays(h, h', h.threads[u].call.d, h.threads[u].call.id, |h.data|);
    }
  }

  lemma LaterStays(h: Heap, h': Heap, d: Struct<nat>, id: nat, n: nat)
    requires LaterThan(h, d, id) && h.ids <= h'.ids && Backward(h.data, d, n) && |h.ids| == |h.data|
    ensures LaterThan(h', d, id)
  {
    forall r | r in Refs(d.fields) && r < |h'.ids| ensures h'.ids[r] < id {
      var i :| 0 <= i < |Refs(d.fields)| && Refs(d.fields)[i] == r;
    }
  }

  lemma StepMetas(h: Heap, t: nat, act: Action)
    requires Inv(h) && Enabled(h, t, act) && GraphOk(Do(h, t, act))
    ensures MetasOk(Do(h, t, act))
  {
    if act.Allocate? {
      var h' := Do(h, t, act);
      var d := h.threads[t].call.d;
      assert ThreadOk(h, t);
      forall n | 0 <= n < |h'.data| ensures h'.metas[n] == Clamp(TreeExact(h'.own, Unfold(h'.data, n))) {
        if n < |h.data| {
          UnfoldPrefix(h.data, h'.data, n);
        } else {
          MetaExact(h, d, h'.data);
        }
      }
    }
  }

  /** Metadata computed from the cached metadata is that of the whole tree. */
  lemma MetaExact(h: Heap, d: Struct<nat>, data: seq<Struct<nat>>)
    requires IsGraph(h.data) && |h.metas| == |h.data| && MetasOk(h) && Backward(h.data, d, |h.data|)
    requires IsGraph(data) && data == h.data + [d]
    ensures MetaOf(h, d) == Clamp(TreeExact(h.own, Unfold(data, |h.data|)))
  {
    var n, t, w := |h.data|, Unfold(data, |h.data|), WithMetas(h.metas, d);
    UnfoldKids(data, n);
    ShapesRefs(d.fields);
    FillShape(Shapes(d.fields), MetasOf(h.metas, Refs(d.fields)));
    assert Refs(w.fields) == MetasOf(h.metas, Refs(d.fields)) && Shape(w) == Shape(d);
    forall i | 0 <= i < |t.kids| ensures Refs(w.fields)[i] == Clamp(TreeExact(h.own, t.kids[i])) {
      UnfoldPrefix(h.data, data, Kids(data, n)[i]);
    }
    StructMetaClamps(w, h.own, t);
  }

  lemma StepThread(h: Heap, t: nat, act: Action, u: nat)
    requires Inv(h) && Enabled(h, t, act) && u < |h.threads|
    ensures ThreadOk(Do(h, t, act), u)
  {
    assert ThreadOk(h, t) && ThreadOk(h, u);
    match act
    case Allocate => AllocateThread(h, t, u);
    case Publish => PublishThread(h, t, u);
    case Die(n) => DieThread(h, t, n, u);
    case _ => HandleThread(h, t, act, u);
  }

  lemma HandleThread(h: Heap, t: nat, act: Action, u: nat)
    requires Inv(h) && Enabled(h, t, act) && u < |h.threads| && !act.Allocate? && !act.Publish? && !act.Die?
    ensures ThreadOk(Do(h, t, act), u)
  {
    assert ThreadOk(h, t) && ThreadOk(h, u);
    var h' := Do(h, t, act);
    if act.Clone? {
      var p :| p in h.threads[t].held && p < |h.data| && act.n in Kids(h.data, p);
      assert p in h.live;
    }
    assert Alive(h') == Alive(h) && h'.data == h.data && h'.metas == h.metas && h'.own == h.own;
    assert h'.threads[u].held <= Alive(h);
    assert h'.threads[u].call == h.threads[u].call ==>
      h.threads[u].held <= h'.threads[u].held || h.threads[u].call.NoCall?;
  }

  lemma AllocateThread(h: Heap, t: nat, u: nat)
    requires Inv(h) && Enabled(h, t, Allocate) && u < |h.threads|
    ensures ThreadOk(Do(h, t, Allocate), u)
  {
    assert ThreadOk(h, t) && ThreadOk(h, u);
    var h' := Do(h, t, Allocate);
    assert Alive(h) <= Alive(h');
    if u != t && (h.threads[u].call.Missed? || h.threads[u].call.Reserved?) {
      var d := h.threads[u].call.d;
      assert Holds(h', u, d);
      assert MetasOf(h'.metas, Refs(d.fields)) == MetasOf(h.metas, Refs(d.fields)) by {
        assert forall i :: 0 <= i < |Refs(d.fields)| ==> Refs(d.fields)[i] < |h.metas|;
      }
    }
  }

  lemma PublishThread(h: Heap, t: nat, u: nat)
    requires Inv(h) && Enabled(h, t, Publish) && u < |h.threads|
    ensures ThreadOk(Do(h, t, Publish), u)
  {
    assert ThreadOk(h, t) && ThreadOk(h, u);
  }

  lemma DieThread(h: Heap, t: nat, n: nat, u: nat)
    requires Inv(h) && Enabled(h, t, Die(n)) && u < |h.threads|
    ensures ThreadOk(Do(h, t, Die(n)), u)
  {
    assert ThreadOk(h, u);
  }

  lemma StepInv(h: Heap, t: nat, act: Action)
    requires Inv(h) && Enabled(h, t, act)
    ensures Inv(Do(h, t, act))
  {
    StepGraph(h, t, act);
    StepIds(h, t, act);
    StepMetas(h, t, act);
    forall u | 0 <= u < |h.threads| ensures ThreadOk(Do(h, t, act), u) {
      StepThread(h, t, act, u);
    }
    StepBuilt(h, t, act);
  }

  lemma StepBuilt(h: Heap, t: nat, act: Action)
    requires Inv(h) && Enabled(h, t, act)
    ensures BuiltOnce(Do(h, t, act))
  {
    var h' := Do(h, t, act);
    if act.Allocate? {
      forall u | 0 <= u < |h.threads| && h.threads[u].call.Built? ensures h.threads[u].call.n < |h.data| {
        assert ThreadOk(h, u);
      }
    }
    assert forall u :: 0 <= u < |h.threads| && h'.threads[u].call.Built? && !(act.Allocate? && u == t) ==>
      h'.threads[u].call == h.threads[u].call;
  }
}
