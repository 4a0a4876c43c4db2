/** Archives: the node table in collect order, references as indices into it, and the roots
    (hirpdag_derive/src/lib.rs, hirpdag/src/base/serialize.rs). Fields are written and read
    by one traversal that maps references and can fail. */
module Archives {
  import opened Basics
  import opened Fields
  import opened Graph
  import opened Dag
  import opened Collect

  const FORMAT_VERSION: nat := 1

  /** `roots` are the fields of `HirpdagArchiveRoots`: one vector per root type. */
  datatype Archive = Archive(version: nat, nodes: seq<Struct<nat>>, roots: seq<Field<nat>>)

  // ---------------------------------------------------------------- mapping references

  function Resolve(f: Field<nat>, look: (nat, nat) -> Option<nat>): Option<Field<nat>> {
    match f
    case Ref(ty, r) => (match look(ty, r) case Some(q) => Some(Ref(ty, q)) case None => None)
    case Present(g) => (match Resolve(g, look) case Some(x) => Some(Present(x)) case None => None)
    case Vec(fs) => (match ResolveAll(fs, look) case Some(xs) => Some(Vec(xs)) case None => None)
    case Variant(tag, g) => (match Resolve(g, look) case Some(x) => Some(Variant(tag, x)) case None => None)
    case _ => Some(f)
  }

  function ResolveAll(fs: seq<Field<nat>>, look: (nat, nat) -> Option<nat>): Option<seq<Field<nat>>> {
    if fs == [] then Some([])
    else
      match Resolve(fs[0], look)
      case None => None
      case Some(x) => match ResolveAll(fs[1..], look)
                      case None => None
                      case Some(xs) => Some([x] + xs)
  }

  /** `rs'` is what `look` makes of the references `rs`. */
  ghost predicate LooksUp(ts: seq<nat>, rs: seq<nat>, look: (nat, nat) -> Option<nat>, rs': seq<nat>) {
    |ts| == |rs| == |rs'| && forall i :: 0 <= i < |rs| ==> look(ts[i], rs[i]) == Some(rs'[i])
  }

  lemma LooksUpAppend(ts: seq<nat>, rs: seq<nat>, rs': seq<nat>, us: seq<nat>, qs: seq<nat>, qs': seq<nat>,
                      look: (nat, nat) -> Option<nat>)
    requires LooksUp(ts, rs, look, rs') && LooksUp(us, qs, look, qs')
    ensures LooksUp(ts + us, rs + qs, look, rs' + qs')
  {
  }

  lemma {:induction false} ResolveMaps(f: Field<nat>, look: (nat, nat) -> Option<nat>)
    requires Resolve(f, look).Some?
    ensures ShapeOf<nat>(Resolve(f, look).value) == ShapeOf<nat>(f)
    ensures LooksUp(TypesIn<nat>(f), RefsIn<nat>(f), look, RefsIn<nat>(Resolve(f, look).value))
  {
    match f
    case Present(g) => ResolveMaps(g, look);
    case Variant(_, g) => ResolveMaps(g, look);
    case Vec(fs) => ResolveAllMaps(fs, look);
    case _ =>
  }

  /** Success: same shape, and every reference replaced by what `look` found. */
  lemma {:induction false} ResolveAllMaps(fs: seq<Field<nat>>, look: (nat, nat) -> Option<nat>)
    requires ResolveAll(fs, look).Some?
    ensures Shapes<nat>(ResolveAll(fs, look).value) == Shapes<nat>(fs)
    ensures LooksUp(Types<nat>(fs), Refs<nat>(fs), look, Refs<nat>(ResolveAll(fs, look).value))
  {
    if fs != [] {
      var x, xs := Resolve(fs[0], look).value, ResolveAll(fs[1..], look).value;
      ResolveMaps(fs[0], look);
      ResolveAllMaps(fs[1..], look);
      assert ([x] + xs)[0] == x && ([x] + xs)[1..] == xs;
      LooksUpAppend(TypesIn<nat>(fs[0]), RefsIn<nat>(fs[0]), RefsIn<nat>(x), Types<nat>(fs[1..]), Refs<nat>(fs[1..]),
                    Refs<nat>(xs), look);
    }
  }

  lemma {:induction false} ResolveSucceeds(f: Field<nat>, look: (nat, nat) -> Option<nat>)
    requires forall i :: 0 <= i < |RefsIn<nat>(f)| ==> look(TypesIn<nat>(f)[i], RefsIn<nat>(f)[i]).Some?
    ensures Resolve(f, look).Some?
  {
    match f
    case Ref(ty, r) => assert TypesIn<nat>(f)[0] == ty && RefsIn<nat>(f)[0] == r;
    case Present(g) =>
      assert RefsIn<nat>(f) == RefsIn<nat>(g) && TypesIn<nat>(f) == TypesIn<nat>(g);
      ResolveSucceeds(g, look);
    case Variant(_, g) =>
      assert RefsIn<nat>(f) == RefsIn<nat>(g) && TypesIn<nat>(f) == TypesIn<nat>(g);
      ResolveSucceeds(g, look);
    case Vec(fs) =>
      assert RefsIn<nat>(f) == Refs<nat>(fs) && TypesIn<nat>(f) == Types<nat>(fs);
      ResolveAllSucceeds(fs, look);
    case _ =>
  }

  lemma {:induction false} ResolveAllSucceeds(fs: seq<Field<nat>>, look: (nat, nat) -> Option<nat>)
    requires forall i :: 0 <= i < |Refs<nat>(fs)| ==> look(Types<nat>(fs)[i], Refs<nat>(fs)[i]).Some?
    ensures ResolveAll(fs, look).Some?
  {
    if fs != [] {
      var k := |RefsIn<nat>(fs[0])|;
      forall i | 0 <= i < k ensures look(TypesIn<nat>(fs[0])[i], RefsIn<nat>(fs[0])[i]).Some? {
        assert Types<nat>(fs)[i] == TypesIn<nat>(fs[0])[i] && Refs<nat>(fs)[i] == RefsIn<nat>(fs[0])[i];
      }
      forall i | 0 <= i < |Refs<nat>(fs[1..])| ensures look(Types<nat>(fs[1..])[i], Refs<nat>(fs[1..])[i]).Some? {
        assert Types<nat>(fs)[k + i] == Types<nat>(fs[1..])[i] && Refs<nat>(fs)[k + i] == Refs<nat>(fs[1..])[i];
      }
      ResolveSucceeds(fs[0], look);
      ResolveAllSucceeds(fs[1..], look);
    }
  }

  // ---------------------------------------------------------------- writing

  /** `gs` is `fs` with every reference replaced by its place in the order. */
  ghost predicate Encodes(order: seq<nat>, fs: seq<Field<nat>>, gs: seq<Field<nat>>) {
    && Shapes<nat>(gs) == Shapes<nat>(fs) && |Refs<nat>(gs)| == |Refs<nat>(fs)|
    && (forall j :: 0 <= j < |Refs<nat>(gs)| ==>
      Refs<nat>(gs)[j] < |order| && order[Refs<nat>(gs)[j]] == Refs<nat>(fs)[j])
  }

  ghost predicate WrittenAs(data: seq<Struct<nat>>, order: seq<nat>, i: nat, node: Struct<nat>)
    requires i < |order|
  {
    order[i] < |data| && node.ty == data[order[i]].ty && Encodes(order, data[order[i]].fields, node.fields)
  }

  /** What an archive of the roots is, for the order its nodes are listed in. */
  ghost predicate IsArchive(data: seq<Struct<nat>>, order: seq<nat>, roots: seq<Field<nat>>, a: Archive) {
    && a.version == FORMAT_VERSION && |a.nodes| == |order|
    && (forall i :: 0 <= i < |order| ==> WrittenAs(data, order, i, a.nodes[i]))
    && Encodes(order, roots, a.roots)
  }

  /** References are written as their index in the table; one that was not collected is an
      error. */
  function WriteRef(ids: seq<nat>, seen: map<nat, nat>): (nat, nat) -> Option<nat> {
    (ty: nat, r: nat) => if r < |ids| && ids[r] in seen then Some(seen[ids[r]]) else None
  }

  method WriteFields(h: Heap, ctx: HirpdagCollectCtx, fs: seq<Field<nat>>) returns (r: Result<seq<Field<nat>>>)
    requires ctx.Valid(h) && forall q :: q in Refs<nat>(fs) ==> q in ctx.order
    ensures r.Ok? && Encodes(ctx.order, fs, r.value)
  {
    var look := WriteRef(h.ids, ctx.seen);
    var written := ResolveAll(fs, look);
    forall i | 0 <= i < |Refs<nat>(fs)| ensures look(Types<nat>(fs)[i], Refs<nat>(fs)[i]).Some? {
      assert Refs<nat>(fs)[i] in ctx.order;
    }
    ResolveAllSucceeds(fs, look);
    ResolveAllMaps(fs, look);
    WrittenEncodes(h.ids, ctx.seen, ctx.order, fs, written.value);
    r := if written.Some? then Ok(written.value) else Err;
  }

  lemma WrittenEncodes(ids: seq<nat>, seen: map<nat, nat>, order: seq<nat>, fs: seq<Field<nat>>, gs: seq<Field<nat>>)
    requires forall i :: 0 <= i < |order| ==> order[i] < |ids| && ids[order[i]] in seen && seen[ids[order[i]]] == i
    requires forall q :: q in Refs<nat>(fs) ==> q in order
    requires Shapes<nat>(gs) == Shapes<nat>(fs)
    requires LooksUp(Types<nat>(fs), Refs<nat>(fs), WriteRef(ids, seen), Refs<nat>(gs))
    ensures Encodes(order, fs, gs)
  {
    forall j | 0 <= j < |Refs<nat>(gs)|
      ensures Refs<nat>(gs)[j] < |order| && order[Refs<nat>(gs)[j]] == Refs<nat>(fs)[j]
    {
      assert Refs<nat>(fs)[j] in Refs<nat>(fs);
      var i :| 0 <= i < |order| && order[i] == Refs<nat>(fs)[j];
      assert WriteRef(ids, seen)(Types<nat>(fs)[j], Refs<nat>(fs)[j]) == Some(Refs<nat>(gs)[j]);
    }
  }

  method WriteNodes(h: Heap, ctx: HirpdagCollectCtx) returns (nodes: seq<Struct<nat>>)
    requires ctx.Valid(h)
    ensures |nodes| == |ctx.order|
    ensures forall i :: 0 <= i < |nodes| ==> WrittenAs(h.data, ctx.order, i, nodes[i])
  {
    nodes := [];
    while |nodes| < |ctx.nodes|
      invariant |nodes| <= |ctx.nodes|
      invariant forall i :: 0 <= i < |nodes| ==> WrittenAs(h.data, ctx.order, i, nodes[i])
    {
      var node := ctx.nodes[|nodes|];
      forall q | q in Refs<nat>(node.fields) ensures q in ctx.order {
        assert q in Kids(h.data, ctx.order[|nodes|]);
      }
      var fields := WriteFields(h, ctx, node.fields);
      nodes := nodes + [Struct(node.ty, fields.value)];
    }
  }

  /** `hirpdag_serialize`, up to the byte format: it never fails. */
  method Serialize(h: Heap, roots: seq<Field<nat>>) returns (r: Result<Archive>)
    requires Inv(h) && forall i :: 0 <= i < |Refs<nat>(roots)| ==> Refs<nat>(roots)[i] < |h.data|
    ensures r.Ok? && IsArchive(h.data, PostAll(h.data, Refs<nat>(roots), |h.data|, []), roots, r.value)
    ensures r.value.version == 1
  {
    var ctx := new HirpdagCollectCtx();
    ctx.CollectFields(h, roots, |h.data|);
    PostAllOrder(h.data, Refs<nat>(roots), |h.data|, []);
    var nodes := WriteNodes(h, ctx);
    var written := WriteFields(h, ctx, roots);
    r := Ok(Archive(FORMAT_VERSION, nodes, written.value));
  }

  // ---------------------------------------------------------------- what an archive says

  lemma SameShapes(fs: seq<Field<nat>>, gs: seq<Field<nat>>)
    requires Shapes<nat>(fs) == Shapes<nat>(gs)
    ensures Types<nat>(fs) == Types<nat>(gs) && |Refs<nat>(fs)| == |Refs<nat>(gs)|
  {
    ShapesRefs(fs);
    ShapesRefs(gs);
  }

  /** An archive refers backwards only, at the right types. */
  lemma ArchiveIsGraph(data: seq<Struct<nat>>, order: seq<nat>, roots: seq<Field<nat>>, a: Archive)
    requires IsGraph(data) && ChildrenFirst(data, order) && IsArchive(data, order, roots, a)
    ensures IsGraph(a.nodes)
  {
    forall i | 0 <= i < |a.nodes| ensures Backward(a.nodes, a.nodes[i], i) {
      var fs, gs := data[order[i]].fields, a.nodes[i].fields;
      assert Backward(data, data[order[i]], order[i]);
      SameShapes(fs, gs);
      forall j | 0 <= j < |Refs<nat>(gs)|
        ensures Refs<nat>(gs)[j] < i && a.nodes[Refs<nat>(gs)[j]].ty == Types<nat>(gs)[j]
      {
        assert Refs<nat>(fs)[j] in Kids(data, order[i]);
        assert Refs<nat>(fs)[j] in order[..i];
      }
    }
  }

  /** Entry `i` unfolds to what the `i`th collected node unfolds to. */
  lemma {:induction false} ArchiveUnfolds(data: seq<Struct<nat>>, order: seq<nat>, roots: seq<Field<nat>>, a: Archive,
                                          i: nat)
    requires IsGraph(data) && ChildrenFirst(data, order) && IsArchive(data, order, roots, a)
    requires IsGraph(a.nodes) && i < |order|
    ensures Unfold(a.nodes, i) == Unfold(data, order[i])
    decreases i
  {
    var n := order[i];
    assert Backward(a.nodes, a.nodes[i], i);
    forall j | 0 <= j < |Kids(a.nodes, i)| && Kids(a.nodes, i)[j] < i && Kids(data, n)[j] < n
      ensures Unfold(a.nodes, Kids(a.nodes, i)[j]) == Unfold(data, Kids(data, n)[j])
    {
      ArchiveUnfolds(data, order, roots, a, Kids(a.nodes, i)[j]);
    }
    SameUnfold(a.nodes, i, data, n);
  }
}
