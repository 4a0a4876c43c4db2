/** The collect phase of serialization: a depth-first walk that registers every reachable
    node once, children first (hirpdag_derive/src/lib.rs, hirpdag/src/base/serialize.rs). */
module Collect {
  import opened Fields
  import opened Graph
  import opened Dag

  // ---------------------------------------------------------------- the order, as a function

  /** The nodes registered after visiting `r`, if `order` were registered before. */
  ghost function PostRef(data: seq<Struct<nat>>, r: nat, order: seq<nat>): seq<nat>
    requires IsGraph(data) && r < |data|
    decreases r, 1, 0
  {
    if r in order then order
    else
      assert Backward(data, data[r], r);
      PostAll(data, Kids(data, r), r, order) + [r]
  }

  ghost function PostAll(data: seq<Struct<nat>>, rs: seq<nat>, bound: nat, order: seq<nat>): seq<nat>
    requires IsGraph(data) && bound <= |data| && forall i :: 0 <= i < |rs| ==> rs[i] < bound
    decreases bound, 0, |rs|
  {
    if rs == [] then order else PostAll(data, rs[1..], bound, PostRef(data, rs[0], order))
  }

  lemma {:induction false} PostAllAppend(data: seq<Struct<nat>>, rs: seq<nat>, qs: seq<nat>, bound: nat,
                                         order: seq<nat>)
    requires IsGraph(data) && bound <= |data| && forall i :: 0 <= i < |rs + qs| ==> (rs + qs)[i] < bound
    ensures forall i :: 0 <= i < |rs| ==> rs[i] < bound
    ensures forall i :: 0 <= i < |qs| ==> qs[i] < bound
    ensures PostAll(data, rs + qs, bound, order) == PostAll(data, qs, bound, PostAll(data, rs, bound, order))
    decreases |rs|
  {
    forall i | 0 <= i < |rs| ensures rs[i] < bound { assert (rs + qs)[i] == rs[i]; }
    forall i | 0 <= i < |qs| ensures qs[i] < bound { assert (rs + qs)[|rs| + i] == qs[i]; }
    if rs == [] {
      assert rs + qs == qs;
    } else {
      assert (rs + qs)[1..] == rs[1..] + qs;
      PostAllAppend(data, rs[1..], qs, bound, PostRef(data, rs[0], order));
    }
  }

  // ---------------------------------------------------------------- what the order is

  /** `q` is `r` or somewhere below it. */
  ghost predicate Reaches(data: seq<Struct<nat>>, r: nat, q: nat)
    requires IsGraph(data) && r < |data|
    decreases r
  {
    r == q || exists k :: k in Kids(data, r) && k < r && Reaches(data, k, q)
  }

  /** No node twice, and children strictly before their parents. */
  ghost predicate ChildrenFirst(data: seq<Struct<nat>>, order: seq<nat>) {
    && (forall i :: 0 <= i < |order| ==> order[i] < |data|)
    && (forall i, j :: 0 <= i < j < |order| ==> order[i] != order[j])
    && (forall i, k :: 0 <= i < |order| && k in Kids(data, order[i]) ==> k in order[..i])
  }

  lemma {:induction false} ReachesSmaller(data: seq<Struct<nat>>, r: nat, q: nat)
    requires IsGraph(data) && r < |data| && Reaches(data, r, q)
    ensures q <= r
    decreases r
  {
    if r != q {
      var k :| k in Kids(data, r) && k < r && Reaches(data, k, q);
      ReachesSmaller(data, k, q);
    }
  }

  lemma ReachedThrough(data: seq<Struct<nat>>, r: nat, k: nat, q: nat)
    requires IsGraph(data) && r < |data| && k in Kids(data, r) && k < r && Reaches(data, k, q)
    ensures Reaches(data, r, q) && q < r
  {
    ReachesSmaller(data, k, q);
  }

  lemma {:induction false} RegisteredReaches(data: seq<Struct<nat>>, order: seq<nat>, r: nat, q: nat)
    requires IsGraph(data) && ChildrenFirst(data, order) && r in order && r < |data| && Reaches(data, r, q)
    ensures q in order
    decreases r
  {
    if r != q {
      var k :| k in Kids(data, r) && k < r && Reaches(data, k, q);
      var i :| 0 <= i < |order| && order[i] == r;
      assert k in order[..i];
      RegisteredReaches(data, order, k, q);
    }
  }

  lemma SnocChildrenFirst(data: seq<Struct<nat>>, order: seq<nat>, r: nat)
    requires ChildrenFirst(data, order) && r < |data| && r !in order
    requires forall k :: k in Kids(data, r) ==> k in order
    ensures ChildrenFirst(data, order + [r])
  {
    var after := order + [r];
    forall i, k | 0 <= i < |after| && k in Kids(data, after[i]) ensures k in after[..i] {
      assert after[..i] == order[..i];
      assert order[..|order|] == order;
    }
  }

  lemma {:induction false} PostRefOrder(data: seq<Struct<nat>>, r: nat, order: seq<nat>)
    requires IsGraph(data) && r < |data| && ChildrenFirst(data, order)
    ensures var after := PostRef(data, r, order);
      ChildrenFirst(data, after) && order <= after && r in after
    ensures forall q :: q in PostRef(data, r, order) ==> q in order || Reaches(data, r, q)
    decreases r, 1, 0
  {
    if r !in order {
      assert Backward(data, data[r], r);
      PostAllOrder(data, Kids(data, r), r, order);
      var before := PostAll(data, Kids(data, r), r, order);
      forall q | q in before ensures q in order || (q < r && Reaches(data, r, q)) {
        if q !in order {
          var i :| 0 <= i < |Kids(data, r)| && Reaches(data, Kids(data, r)[i], q);
          ReachedThrough(data, r, Kids(data, r)[i], q);
        }
      }
      assert r !in before;
      SnocChildrenFirst(data, before, r);
    }
  }

  lemma {:induction false} PostAllOrder(data: seq<Struct<nat>>, rs: seq<nat>, bound: nat, order: seq<nat>)
    requires IsGraph(data) && bound <= |data| && ChildrenFirst(data, order)
    requires forall i :: 0 <= i < |rs| ==> rs[i] < bound
    ensures var after := PostAll(data, rs, bound, order);
      ChildrenFirst(data, after) && order <= after && (forall i :: 0 <= i < |rs| ==> rs[i] in after)
    ensures forall q :: q in PostAll(data, rs, bound, order) ==>
      q in order || exists i :: 0 <= i < |rs| && Reaches(data, rs[i], q)
    decreases bound, 0, |rs|
  {
    if rs != [] {
      var first := PostRef(data, rs[0], order);
      PostRefOrder(data, rs[0], order);
      PostAllOrder(data, rs[1..], bound, first);
      var after := PostAll(data, rs, bound, order);
      forall i | 0 <= i < |rs| ensures rs[i] in after {
        if i > 0 { assert rs[1..][i - 1] == rs[i]; }
      }
      forall q | q in after && q !in order ensures exists i :: 0 <= i < |rs| && Reaches(data, rs[i], q) {
        if q !in first {
          var i :| 0 <= i < |rs[1..]| && Reaches(data, rs[1..][i], q);
          assert Reaches(data, rs[i + 1], q);
        }
      }
    }
  }

  /** Main theorem of the collect phase: the registered nodes are exactly those reachable
      from the roots, each once, children before parents. */
  lemma CollectsExactly(data: seq<Struct<nat>>, roots: seq<nat>)
    requires IsGraph(data) && forall i :: 0 <= i < |roots| ==> roots[i] < |data|
    ensures ChildrenFirst(data, PostAll(data, roots, |data|, []))
    ensures forall q :: q in PostAll(data, roots, |data|, []) <==>
      exists i :: 0 <= i < |roots| && Reaches(data, roots[i], q)
  {
    PostAllOrder(data, roots, |data|, []);
    var order := PostAll(data, roots, |data|, []);
    forall i, q | 0 <= i < |roots| && Reaches(data, roots[i], q) ensures q in order {
      RegisteredReaches(data, order, roots[i], q);
    }
  }

  // ---------------------------------------------------------------- the code

  class HirpdagCollectCtx {
    var seen: map<nat, nat>
    var nodes: seq<Struct<nat>>
    ghost var order: seq<nat>

    constructor ()
      ensures seen == map[] && nodes == [] && order == []
    {
      seen, nodes, order := map[], [], [];
    }

    /** `nodes` are the nodes in `order`, and `seen` is a bijection from their creation IDs
        onto the indices. */
    ghost predicate Valid(h: Heap) reads this {
      && IsGraph(h.data) && IdsOk(h) && |nodes| == |order| && ChildrenFirst(h.data, order)
      && (forall i :: 0 <= i < |order| ==>
        nodes[i] == h.data[order[i]] && h.ids[order[i]] in seen && seen[h.ids[order[i]]] == i)
      && (forall id :: id in seen ==> seen[id] < |order| && h.ids[order[seen[id]]] == id)
    }

    method CollectRef(h: Heap, r: nat)
      requires Valid(h) && r < |h.data|
      modifies this
      ensures Valid(h) && order == PostRef(h.data, r, old(order))
      decreases r, 1, 0
    {
      var creationId := h.ids[r];
      if creationId in seen {
        assert order[seen[creationId]] == r;
        return;
      }
      assert r !in order;
      assert Backward(h.data, h.data[r], r);
      PostRefOrder(h.data, r, order);
      CollectFields(h, h.data[r].fields, r);
      Register(h, r);
    }

    /** Appends a node all of whose children are there. */
    method Register(h: Heap, r: nat)
      requires Valid(h) && r < |h.data| && ChildrenFirst(h.data, order + [r])
      modifies this
      ensures Valid(h) && order == old(order) + [r]
    {
      forall i | 0 <= i < |order| ensures order[i] != r && order[i] < |h.data| {
        assert (order + [r])[i] == order[i] && (order + [r])[|order|] == r;
      }
      var index := |nodes|;
      nodes := nodes + [h.data[r]];
      seen := seen[h.ids[r] := index];
      order := order + [r];
    }

    method CollectField(h: Heap, f: Field<nat>, ghost bound: nat)
      requires Valid(h) && bound <= |h.data| && forall i :: 0 <= i < |RefsIn(f)| ==> RefsIn(f)[i] < bound
      modifies this
      ensures Valid(h) && order == PostAll(h.data, RefsIn(f), bound, old(order))
      decreases bound, 0, f
    {
      match f
      case Ref(_, r) =>
        assert RefsIn(f)[0] == r && RefsIn(f)[1..] == [];
        CollectRef(h, r);
      case Present(g) => assert RefsIn(f) == RefsIn(g); CollectField(h, g, bound);
      case Vec(fs) => assert RefsIn(f) == Refs(fs); CollectFields(h, fs, bound);
      case Variant(_, g) => assert RefsIn(f) == RefsIn(g); CollectField(h, g, bound);
      case _ =>
    }

    method CollectFields(h: Heap, fs: seq<Field<nat>>, ghost bound: nat)
      requires Valid(h) && bound <= |h.data| && forall i :: 0 <= i < |Refs(fs)| ==> Refs(fs)[i] < bound
      modifies this
      ensures Valid(h) && order == PostAll(h.data, Refs(fs), bound, old(order))
      decreases bound, 0, fs
    {
      var i := 0;
      while i < |fs|
        invariant 0 <= i <= |fs| && Valid(h)
        invariant forall j :: 0 <= j < |Refs(fs[i..])| ==> Refs(fs[i..])[j] < bound
        invariant PostAll(h.data, Refs(fs), bound, old(order)) == PostAll(h.data, Refs(fs[i..]), bound, order)
      {
        assert fs[i..][0] == fs[i] && fs[i..][1..] == fs[i + 1..];
        PostAllAppend(h.data, RefsIn(fs[i]), Refs(fs[i + 1..]), bound, order);
        CollectField(h, fs[i], bound);
        i := i + 1;
      }
    }
  }
}
