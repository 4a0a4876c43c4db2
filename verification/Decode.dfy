/** Reading archives: a single pass that interns each entry as soon as it is decoded
    (hirpdag_derive/src/lib.rs), what it accepts, and what it builds. */
module Decode {
  import opened Basics
  import opened Fields
  import opened Graph
  import opened Dag
  import opened Runtime
  import opened Archives

  /** A reconstructed node, tagged with its type. */
  datatype NodeRef = NodeRef(ty: nat, n: nat)

  /** An index must be in range so far, and of the type the field asks for. */
  function ReadRef(session: seq<NodeRef>): (nat, nat) -> Option<nat> {
    (ty: nat, i: nat) => if i < |session| && session[i].ty == ty then Some(session[i].n) else None
  }

  /** Entry `n` of the heap is what the first entries of the archive say about `i`. */
  ghost predicate Rebuilt(data: seq<Struct<nat>>, mine: set<nat>, x: NodeRef, nodes: seq<Struct<nat>>, i: nat)
    requires IsGraph(data) && IsGraph(nodes) && i < |nodes|
  {
    x.n < |data| && x.n in mine && x.ty == nodes[i].ty == data[x.n].ty && Unfold(data, x.n) == Unfold(nodes, i)
  }

  ghost predicate AllRebuilt(data: seq<Struct<nat>>, mine: set<nat>, session: seq<NodeRef>, nodes: seq<Struct<nat>>) {
    && IsGraph(data) && IsGraph(nodes) && |session| == |nodes|
    && (forall i :: 0 <= i < |nodes| ==> Rebuilt(data, mine, session[i], nodes, i))
  }

  lemma RebuiltStays(data: seq<Struct<nat>>, mine: set<nat>, session: seq<NodeRef>, nodes: seq<Struct<nat>>,
                     data': seq<Struct<nat>>, mine': set<nat>)
    requires AllRebuilt(data, mine, session, nodes) && IsGraph(data') && data <= data' && mine <= mine'
    ensures AllRebuilt(data', mine', session, nodes)
  {
    forall i | 0 <= i < |nodes| ensures Rebuilt(data', mine', session[i], nodes, i) {
      assert Rebuilt(data, mine, session[i], nodes, i);
      UnfoldPrefix(data, data', session[i].n);
    }
  }

  /** A field list can be read exactly if it refers backwards, at the right types. */
  lemma ReadableIsBackward(data: seq<Struct<nat>>, mine: set<nat>, session: seq<NodeRef>, nodes: seq<Struct<nat>>,
                           d: Struct<nat>)
    requires AllRebuilt(data, mine, session, nodes)
    ensures ResolveAll(d.fields, ReadRef(session)).Some? <==> Backward(nodes, d, |nodes|)
  {
    var look := ReadRef(session);
    assert forall i :: 0 <= i < |nodes| ==> Rebuilt(data, mine, session[i], nodes, i);
    if Backward(nodes, d, |nodes|) {
      ResolveAllSucceeds(d.fields, look);
    }
    if ResolveAll(d.fields, look).Some? {
      ResolveAllMaps(d.fields, look);
    }
  }

  /** The fields read refer to nodes we hold, of the right types. */
  lemma ReadHolds(h: Heap, me: nat, session: seq<NodeRef>, nodes: seq<Struct<nat>>, d: Struct<nat>, d': Struct<nat>)
    requires me < |h.threads| && AllRebuilt(h.data, h.threads[me].held, session, nodes)
    requires ResolveAll(d.fields, ReadRef(session)) == Some(d'.fields)
    ensures Holds(h, me, d') && Shapes<nat>(d'.fields) == Shapes<nat>(d.fields)
    ensures LooksUp(Types<nat>(d.fields), Refs<nat>(d.fields), ReadRef(session), Refs<nat>(d'.fields))
  {
    var look := ReadRef(session);
    ResolveAllMaps(d.fields, look);
    SameShapes(d.fields, d'.fields);
    forall j | 0 <= j < |Refs<nat>(d'.fields)|
      ensures Refs<nat>(d'.fields)[j] < |h.data| && Refs<nat>(d'.fields)[j] in h.threads[me].held
      ensures h.data[Refs<nat>(d'.fields)[j]].ty == Types<nat>(d'.fields)[j]
    {
      assert look(Types<nat>(d.fields)[j], Refs<nat>(d.fields)[j]) == Some(Refs<nat>(d'.fields)[j]);
      assert Rebuilt(h.data, h.threads[me].held, session[Refs<nat>(d.fields)[j]], nodes, Refs<nat>(d.fields)[j]);
    }
  }

  /** A node whose fields were read from an entry unfolds to that entry. */
  lemma ReadUnfolds(data: seq<Struct<nat>>, mine: set<nat>, session: seq<NodeRef>, nodes: seq<Struct<nat>>,
                    d: Struct<nat>, n: nat)
    requires AllRebuilt(data, mine, session, nodes) && n < |data| && n in mine && data[n].ty == d.ty
    requires Shapes<nat>(data[n].fields) == Shapes<nat>(d.fields)
    requires LooksUp(Types<nat>(d.fields), Refs<nat>(d.fields), ReadRef(session), Refs<nat>(data[n].fields))
    requires Backward(nodes, d, |nodes|)
    ensures AllRebuilt(data, mine, session + [NodeRef(d.ty, n)], nodes + [d])
  {
    var nodes', i := nodes + [d], |nodes|;
    GraphSnoc(nodes, d);
    forall j | 0 <= j < |nodes| ensures Rebuilt(data, mine, session[j], nodes', j) {
      assert Rebuilt(data, mine, session[j], nodes, j);
      UnfoldPrefix(nodes, nodes', j);
    }
    forall j | 0 <= j < |Kids(data, n)| && Kids(data, n)[j] < n && Kids(nodes', i)[j] < i
      ensures Unfold(data, Kids(data, n)[j]) == Unfold(nodes', Kids(nodes', i)[j])
    {
      assert ReadRef(session)(Types<nat>(d.fields)[j], Refs<nat>(d.fields)[j]) == Some(Refs<nat>(data[n].fields)[j]);
      assert Rebuilt(data, mine, session[Refs<nat>(d.fields)[j]], nodes', Refs<nat>(d.fields)[j]);
    }
    SameUnfold(data, n, nodes', i);
  }

  /** What the reader accepts: the version it knows, and references strictly backwards, to
      entries of the right type, in the table and in the roots. */
  ghost predicate Decodable(a: Archive) {
    a.version == FORMAT_VERSION && IsGraph(a.nodes) && Backward(a.nodes, Struct(0, a.roots), |a.nodes|)
  }

  /** A reference that does not lead to an earlier entry of the type it asks for. */
  ghost predicate BadReference(nodes: seq<Struct<nat>>, fs: seq<Field<nat>>, n: nat) {
    exists i :: 0 <= i < |Refs<nat>(fs)| &&
      (Refs<nat>(fs)[i] >= n || Refs<nat>(fs)[i] >= |nodes| || nodes[Refs<nat>(fs)[i]].ty != Types<nat>(fs)[i])
  }

  /** What is refused, and nothing else is: another version than 1, a bad reference in some
      entry, or one in the roots. */
  lemma RefusedExactly(a: Archive)
    ensures !Decodable(a) <==>
      || a.version != 1
      || (exists n :: 0 <= n < |a.nodes| && BadReference(a.nodes, a.nodes[n].fields, n))
      || BadReference(a.nodes, a.roots, |a.nodes|)
  {
    forall n | 0 <= n < |a.nodes|
      ensures Backward(a.nodes, a.nodes[n], n) <==> !BadReference(a.nodes, a.nodes[n].fields, n)
    {
    }
    assert Backward(a.nodes, Struct(0, a.roots), |a.nodes|) <==> !BadReference(a.nodes, a.roots, |a.nodes|);
  }

  /** `visit_seq`. */
  method VisitSeq(rt: Runtime, nodes: seq<Struct<nat>>) returns (r: Result<seq<NodeRef>>)
    requires rt.Valid()
    modifies rt
    ensures rt.Since(old(rt.h.data), old(rt.Mine()))
    ensures r.Ok? <==> IsGraph(nodes)
    ensures r.Ok? ==> AllRebuilt(rt.h.data, rt.Mine(), r.value, nodes)
  {
    var session: seq<NodeRef> := [];
    var i := 0;
    while i < |nodes|
      invariant 0 <= i <= |nodes| && rt.Since(old(rt.h.data), old(rt.Mine()))
      invariant AllRebuilt(rt.h.data, rt.Mine(), session, nodes[..i])
    {
      var next;
      next := VisitNode(rt, session, nodes[..i], nodes[i]);
      if next.Err? {
        assert !Backward(nodes, nodes[i], i);
        return Err;
      }
      session := session + [next.value];
      assert nodes[..i + 1] == nodes[..i] + [nodes[i]];
      i := i + 1;
    }
    assert nodes[..i] == nodes;
    r := Ok(session);
  }

  /** Reads one entry and interns it. */
  method VisitNode(rt: Runtime, session: seq<NodeRef>, ghost before: seq<Struct<nat>>, node: Struct<nat>)
    returns (r: Result<NodeRef>)
    requires rt.Valid() && AllRebuilt(rt.h.data, rt.Mine(), session, before)
    modifies rt
    ensures rt.Since(old(rt.h.data), old(rt.Mine()))
    ensures r.Ok? <==> Backward(before, node, |before|)
    ensures r.Ok? ==> AllRebuilt(rt.h.data, rt.Mine(), session + [r.value], before + [node])
  {
    ReadableIsBackward(rt.h.data, rt.Mine(), session, before, node);
    var fields := ResolveAll(node.fields, ReadRef(session));
    if fields.None? {
      return Err;
    }
    var d := Struct(node.ty, fields.value);
    ReadHolds(rt.h, rt.me, session, before, node, d);
    var n := rt.Intern(d);
    RebuiltStays(old(rt.h.data), old(rt.Mine()), session, before, rt.h.data, rt.Mine());
    ReadUnfolds(rt.h.data, rt.Mine(), session, before, node, n);
    r := Ok(NodeRef(node.ty, n));
  }

  /** `gs` are the fields `fs` of an archive with nodes of the heap in place of indices. */
  ghost predicate Read(h: Heap, nodes: seq<Struct<nat>>, fs: seq<Field<nat>>, gs: seq<Field<nat>>)
    requires IsGraph(h.data) && IsGraph(nodes)
  {
    && Shapes<nat>(gs) == Shapes<nat>(fs) && |Refs<nat>(gs)| == |Refs<nat>(fs)|
    && (forall j :: 0 <= j < |Refs<nat>(gs)| ==>
          Refs<nat>(gs)[j] < |h.data| && Refs<nat>(fs)[j] < |nodes| &&
          Unfold(h.data, Refs<nat>(gs)[j]) == Unfold(nodes, Refs<nat>(fs)[j]))
  }

  /** `hirpdag_deserialize`, from the parsed archive on, while other threads do what they
      like: succeeds exactly on decodable archives, and then the node of every entry and
      every root unfolds to what the archive says. */
  method Deserialize(rt: Runtime, a: Archive) returns (r: Result<seq<Field<nat>>>, ghost session: seq<NodeRef>)
    requires rt.Valid()
    modifies rt
    ensures rt.Since(old(rt.h.data), old(rt.Mine()))
    ensures r.Ok? <==> Decodable(a)
    ensures r.Ok? ==> AllRebuilt(rt.h.data, rt.Mine(), session, a.nodes)
    ensures r.Ok? ==> Read(rt.h, a.nodes, a.roots, r.value) && (forall q :: q in Refs<nat>(r.value) ==> q in rt.Mine())
  {
    session := [];
    if a.version != FORMAT_VERSION {
      return Err, [];
    }
    var visited := VisitSeq(rt, a.nodes);
    if visited.Err? {
      return Err, [];
    }
    session := visited.value;
    ghost var d := Struct(0, a.roots);
    ReadableIsBackward(rt.h.data, rt.Mine(), session, a.nodes, d);
    var roots := ResolveAll(a.roots, ReadRef(visited.value));
    if roots.None? {
      return Err, session;
    }
    r := Ok(roots.value);
    ReadHolds(rt.h, rt.me, session, a.nodes, d, Struct(0, roots.value));
    RootsRead(rt.h, rt.Mine(), session, a.nodes, a.roots, roots.value);
  }

  lemma RootsRead(h: Heap, mine: set<nat>, session: seq<NodeRef>, nodes: seq<Struct<nat>>, fs: seq<Field<nat>>,
                  gs: seq<Field<nat>>)
    requires AllRebuilt(h.data, mine, session, nodes) && Shapes<nat>(gs) == Shapes<nat>(fs)
    requires LooksUp(Types<nat>(fs), Refs<nat>(fs), ReadRef(session), Refs<nat>(gs))
    ensures Read(h, nodes, fs, gs)
  {
    forall j | 0 <= j < |Refs<nat>(gs)|
      ensures Refs<nat>(gs)[j] < |h.data| && Refs<nat>(fs)[j] < |nodes|
      ensures Unfold(h.data, Refs<nat>(gs)[j]) == Unfold(nodes, Refs<nat>(fs)[j])
    {
      assert ReadRef(session)(Types<nat>(fs)[j], Refs<nat>(fs)[j]) == Some(Refs<nat>(gs)[j]);
      assert Rebuilt(h.data, mine, session[Refs<nat>(fs)[j]], nodes, Refs<nat>(fs)[j]);
    }
  }
}
