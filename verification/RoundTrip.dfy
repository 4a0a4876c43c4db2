/** Writing and reading fit together: round trips, and archives that depend on nothing but
    the trees they were written from. */
module RoundTrip {
  import opened Fields
  import opened Graph
  import opened Dag
  import opened DagTheorems
  import opened Runtime
  import opened Collect
  import opened Archives
  import opened Decode

  // ---------------------------------------------------------------- canonical archives

  /** Two orders, over two heaps, that list the same trees. */
  ghost predicate SameTrees(data: seq<Struct<nat>>, order: seq<nat>, data': seq<Struct<nat>>, order': seq<nat>)
    requires IsGraph(data) && IsGraph(data')
  {
    && |order| == |order'|
    && (forall i :: 0 <= i < |order| ==>
          order[i] < |data| && order'[i] < |data'| && Unfold(data, order[i]) == Unfold(data', order'[i]))
  }

  /** `rs` and everything in `order` are among nodes `s` no two of which are alike. */
  ghost predicate Among(data: seq<Struct<nat>>, s: set<nat>, rs: seq<nat>, bound: nat, order: seq<nat>) {
    && IsGraph(data) && Distinct(data, s) && bound <= |data|
    && (forall i :: 0 <= i < |rs| ==> rs[i] < bound && rs[i] in s)
    && (forall i :: 0 <= i < |order| ==> order[i] in s)
  }

  lemma SameMembers(data: seq<Struct<nat>>, s: set<nat>, r: nat, order: seq<nat>,
                    data': seq<Struct<nat>>, s': set<nat>, r': nat, order': seq<nat>)
    requires Among(data, s, [r], |data|, order) && Among(data', s', [r'], |data'|, order')
    requires r in s && r' in s' && r < |data| && r' < |data'|
    requires SameTrees(data, order, data', order') && Unfold(data, r) == Unfold(data', r')
    requires r in order
    ensures r' in order'
  {
    var i :| 0 <= i < |order| && order[i] == r;
    assert order'[i] in s';
    UnfoldInjective(data', s', order'[i], r');
  }

  lemma {:induction false} PostRefSame(data: seq<Struct<nat>>, s: set<nat>, r: nat, order: seq<nat>,
                                       data': seq<Struct<nat>>, s': set<nat>, r': nat, order': seq<nat>)
    requires Among(data, s, [r], |data|, order) && Among(data', s', [r'], |data'|, order')
    requires r in s && r' in s' && r < |data| && r' < |data'|
    requires SameTrees(data, order, data', order') && Unfold(data, r) == Unfold(data', r')
    ensures SameTrees(data, PostRef(data, r, order), data', PostRef(data', r', order'))
    ensures Among(data, s, [], |data|, PostRef(data, r, order))
    ensures Among(data', s', [], |data'|, PostRef(data', r', order'))
    decreases r, 1, 0
  {
    if r in order {
      SameMembers(data, s, r, order, data', s', r', order');
    } else {
      if r' in order' { SameMembers(data', s', r', order', data, s, r, order); }
      SameKids(data, s, r, data', s', r');
      PostAllSame(data, s, Kids(data, r), r, order, data', s', Kids(data', r'), r', order');
      SnocSame(data, s, PostAll(data, Kids(data, r), r, order), r,
               data', s', PostAll(data', Kids(data', r'), r', order'), r');
    }
  }

  lemma SameKids(data: seq<Struct<nat>>, s: set<nat>, r: nat, data': seq<Struct<nat>>, s': set<nat>, r': nat)
    requires IsGraph(data) && Distinct(data, s) && r in s && r < |data|
    requires IsGraph(data') && Distinct(data', s') && r' in s' && r' < |data'|
    requires Unfold(data, r) == Unfold(data', r')
    ensures forall i :: 0 <= i < |Kids(data, r)| ==> Kids(data, r)[i] < r && Kids(data, r)[i] in s
    ensures forall i :: 0 <= i < |Kids(data', r')| ==> Kids(data', r')[i] < r' && Kids(data', r')[i] in s'
    ensures SameTrees(data, Kids(data, r), data', Kids(data', r'))
  {
    UnfoldKids(data, r);
    UnfoldKids(data', r');
    assert Unfold(data, r).kids == Unfold(data', r').kids;
  }

  lemma SnocSame(data: seq<Struct<nat>>, s: set<nat>, order: seq<nat>, r: nat,
                 data': seq<Struct<nat>>, s': set<nat>, order': seq<nat>, r': nat)
    requires Among(data, s, [], |data|, order) && Among(data', s', [], |data'|, order')
    requires r in s && r' in s' && r < |data| && r' < |data'|
    requires SameTrees(data, order, data', order') && Unfold(data, r) == Unfold(data', r')
    ensures SameTrees(data, order + [r], data', order' + [r'])
    ensures Among(data, s, [], |data|, order + [r]) && Among(data', s', [], |data'|, order' + [r'])
  {
  }

  lemma {:induction false} PostAllSame(data: seq<Struct<nat>>, s: set<nat>, rs: seq<nat>, bound: nat, order: seq<nat>,
                                       data': seq<Struct<nat>>, s': set<nat>, rs': seq<nat>, bound': nat,
                                       order': seq<nat>)
    requires Among(data, s, rs, bound, order) && Among(data', s', rs', bound', order')
    requires SameTrees(data, order, data', order') && SameTrees(data, rs, data', rs')
    ensures SameTrees(data, PostAll(data, rs, bound, order), data', PostAll(data', rs', bound', order'))
    ensures Among(data, s, [], |data|, PostAll(data, rs, bound, order))
    ensures Among(data', s', [], |data'|, PostAll(data', rs', bound', order'))
    decreases bound, 0, |rs|
  {
    if rs != [] {
      PostRefSame(data, s, rs[0], order, data', s', rs'[0], order');
      PostAllSame(data, s, rs[1..], bound, PostRef(data, rs[0], order),
                  data', s', rs'[1..], bound', PostRef(data', rs'[0], order'));
    }
  }

  /** The same trees at the same places are written the same way. */
  lemma SameWriting(data: seq<Struct<nat>>, s: set<nat>, order: seq<nat>, fs: seq<Field<nat>>, gs: seq<Field<nat>>,
                    data': seq<Struct<nat>>, order': seq<nat>, fs': seq<Field<nat>>, gs': seq<Field<nat>>)
    requires IsGraph(data) && IsGraph(data') && SameTrees(data, order, data', order')
    requires Distinct(data, s) && ChildrenFirst(data, order) && forall i :: 0 <= i < |order| ==> order[i] in s
    requires Shapes<nat>(fs) == Shapes<nat>(fs') && SameTrees(data, Refs<nat>(fs), data', Refs<nat>(fs'))
    requires Encodes(order, fs, gs) && Encodes(order', fs', gs')
    ensures gs == gs'
  {
    forall j | 0 <= j < |Refs<nat>(gs)| ensures Refs<nat>(gs)[j] == Refs<nat>(gs')[j] {
      var a, b := Refs<nat>(gs)[j], Refs<nat>(gs')[j];
      assert Unfold(data, order[b]) == Unfold(data', order'[b]) == Unfold(data, order[a]);
      UnfoldInjective(data, s, order[a], order[b]);
    }
    assert Refs<nat>(gs) == Refs<nat>(gs');
    SameStruct(Struct(0, gs), Struct(0, gs'));
  }

  lemma SameEntry(data: seq<Struct<nat>>, s: set<nat>, order: seq<nat>, node: Struct<nat>,
                  data': seq<Struct<nat>>, order': seq<nat>, node': Struct<nat>, i: nat)
    requires IsGraph(data) && IsGraph(data') && SameTrees(data, order, data', order') && i < |order|
    requires Distinct(data, s) && ChildrenFirst(data, order) && forall i :: 0 <= i < |order| ==> order[i] in s
    requires WrittenAs(data, order, i, node) && WrittenAs(data', order', i, node')
    ensures node == node'
  {
    UnfoldKids(data, order[i]);
    UnfoldKids(data', order'[i]);
    assert Unfold(data, order[i]) == Unfold(data', order'[i]);
    SameWriting(data, s, order, data[order[i]].fields, node.fields, data', order', data'[order'[i]].fields,
                node'.fields);
  }

  /** Main theorem on archives: what is written depends only on the trees the roots unfold to,
      in their order; not on creation IDs, on allocation, or on what else has been interned. */
  lemma ArchivesAreCanonical(data: seq<Struct<nat>>, s: set<nat>, roots: seq<Field<nat>>, order: seq<nat>, a: Archive,
                             data': seq<Struct<nat>>, s': set<nat>, roots': seq<Field<nat>>, order': seq<nat>,
                             a': Archive)
    requires Among(data, s, Refs<nat>(roots), |data|, []) && Among(data', s', Refs<nat>(roots'), |data'|, [])
    requires Shapes<nat>(roots) == Shapes<nat>(roots') && SameTrees(data, Refs<nat>(roots), data', Refs<nat>(roots'))
    requires order == PostAll(data, Refs<nat>(roots), |data|, []) && IsArchive(data, order, roots, a)
    requires order' == PostAll(data', Refs<nat>(roots'), |data'|, []) && IsArchive(data', order', roots', a')
    ensures a == a'
  {
    SameOrders(data, s, Refs<nat>(roots), order, data', s', Refs<nat>(roots'), order');
    SameListing(data, s, order, roots, a, data', order', roots', a');
  }

  /** Collecting the same trees lists the same trees. */
  lemma SameOrders(data: seq<Struct<nat>>, s: set<nat>, rs: seq<nat>, order: seq<nat>,
                   data': seq<Struct<nat>>, s': set<nat>, rs': seq<nat>, order': seq<nat>)
    requires Among(data, s, rs, |data|, []) && Among(data', s', rs', |data'|, []) && SameTrees(data, rs, data', rs')
    requires order == PostAll(data, rs, |data|, []) && order' == PostAll(data', rs', |data'|, [])
    ensures SameTrees(data, order, data', order') && ChildrenFirst(data, order)
    ensures forall i :: 0 <= i < |order| ==> order[i] in s
  {
    PostAllSame(data, s, rs, |data|, [], data', s', rs', |data'|, []);
    PostAllOrder(data, rs, |data|, []);
  }

  lemma SameListing(data: seq<Struct<nat>>, s: set<nat>, order: seq<nat>, roots: seq<Field<nat>>, a: Archive,
                    data': seq<Struct<nat>>, order': seq<nat>, roots': seq<Field<nat>>, a': Archive)
    requires IsGraph(data) && IsGraph(data') && SameTrees(data, order, data', order')
    requires Distinct(data, s) && ChildrenFirst(data, order) && forall i :: 0 <= i < |order| ==> order[i] in s
    requires Shapes<nat>(roots) == Shapes<nat>(roots') && SameTrees(data, Refs<nat>(roots), data', Refs<nat>(roots'))
    requires IsArchive(data, order, roots, a) && IsArchive(data', order', roots', a')
    ensures a == a'
  {
    forall i | 0 <= i < |order| ensures a.nodes[i] == a'.nodes[i] {
      SameEntry(data, s, order, a.nodes[i], data', order', a'.nodes[i], i);
    }
    assert a.nodes == a'.nodes;
    SameWriting(data, s, order, roots, a.roots, data', order', roots', a'.roots);
  }

  // ---------------------------------------------------------------- reading back

  /** Reading what was written gives roots of the same shape and with the same unfoldings. */
  lemma ReadBack(h: Heap, order: seq<nat>, roots: seq<Field<nat>>, a: Archive, h': Heap, back: seq<Field<nat>>)
    requires IsGraph(h.data) && ChildrenFirst(h.data, order) && IsArchive(h.data, order, roots, a)
    requires IsGraph(h'.data) && IsGraph(a.nodes) && Read(h', a.nodes, a.roots, back)
    ensures Shapes<nat>(back) == Shapes<nat>(roots)
    ensures SameTrees(h'.data, Refs<nat>(back), h.data, Refs<nat>(roots))
  {
    forall j | 0 <= j < |Refs<nat>(back)|
      ensures Unfold(h'.data, Refs<nat>(back)[j]) == Unfold(a.nodes, Refs<nat>(a.roots)[j])
      ensures order[Refs<nat>(a.roots)[j]] == Refs<nat>(roots)[j]
      ensures Unfold(a.nodes, Refs<nat>(a.roots)[j]) == Unfold(h.data, Refs<nat>(roots)[j])
    {
      ArchiveUnfolds(h.data, order, roots, a, Refs<nat>(a.roots)[j]);
    }
  }

  lemma RootsBackward(data: seq<Struct<nat>>, order: seq<nat>, roots: seq<Field<nat>>, a: Archive)
    requires Backward(data, Struct(0, roots), |data|) && IsArchive(data, order, roots, a)
    ensures Backward(a.nodes, Struct(0, a.roots), |a.nodes|)
  {
    SameShapes(roots, a.roots);
    forall j | 0 <= j < |Refs<nat>(a.roots)|
      ensures Refs<nat>(a.roots)[j] < |a.nodes| && a.nodes[Refs<nat>(a.roots)[j]].ty == Types<nat>(a.roots)[j]
    {
      assert WrittenAs(data, order, Refs<nat>(a.roots)[j], a.nodes[Refs<nat>(a.roots)[j]]);
    }
  }

  /** The nodes rebuilt from an archive are shared exactly as its entries are, entries that
      describe the same tree being one node; and references lead where the entries say. */
  lemma SharedAsWritten(h: Heap, mine: set<nat>, session: seq<NodeRef>, nodes: seq<Struct<nat>>, i: nat, k: nat)
    requires GraphOk(h) && mine <= Alive(h) && AllRebuilt(h.data, mine, session, nodes) && i < |nodes| && k < |nodes|
    ensures session[i].n == session[k].n <==> Unfold(nodes, i) == Unfold(nodes, k)
    ensures |Kids(h.data, session[i].n)| == |Kids(nodes, i)|
    ensures forall j :: 0 <= j < |Kids(nodes, i)| && Kids(nodes, i)[j] < |session| ==>
      Kids(h.data, session[i].n)[j] == session[Kids(nodes, i)[j]].n
  {
    assert Rebuilt(h.data, mine, session[i], nodes, i) && Rebuilt(h.data, mine, session[k], nodes, k);
    SameNode(h, session[i].n, session[k].n);
    UnfoldKids(h.data, session[i].n);
    UnfoldKids(nodes, i);
    forall j | 0 <= j < |Kids(nodes, i)| && Kids(nodes, i)[j] < |session|
      ensures Kids(h.data, session[i].n)[j] == session[Kids(nodes, i)[j]].n
    {
      var c := Kids(nodes, i)[j];
      assert Rebuilt(h.data, mine, session[c], nodes, c);
      assert Kids(h.data, session[i].n)[j] in Kids(h.data, session[i].n);
      SameNode(h, Kids(h.data, session[i].n)[j], session[c].n);
    }
  }

  /** What an archive lists once is a tree that occurs once: its entries are all different. */
  lemma EntriesDiffer(h: Heap, order: seq<nat>, roots: seq<Field<nat>>, a: Archive, i: nat, k: nat)
    requires GraphOk(h) && ChildrenFirst(h.data, order) && IsArchive(h.data, order, roots, a) && IsGraph(a.nodes)
    requires i < |order| && k < |order| && order[i] in Alive(h) && order[k] in Alive(h)
    ensures Unfold(a.nodes, i) == Unfold(a.nodes, k) <==> i == k
  {
    ArchiveUnfolds(h.data, order, roots, a, i);
    ArchiveUnfolds(h.data, order, roots, a, k);
    SameNode(h, order[i], order[k]);
  }

  /** Writing from one heap and reading into another, in whatever state that is and whatever
      its other threads do meanwhile, always works: the roots have the shape and the
      unfoldings they had, and the nodes collected in `order` are copied one to one. */
  method Transfer(h: Heap, roots: seq<Field<nat>>, rt: Runtime)
    returns (back: seq<Field<nat>>, a: Archive, ghost order: seq<nat>, ghost copies: seq<NodeRef>)
    requires Inv(h) && Backward(h.data, Struct(0, roots), |h.data|)
    requires forall r :: r in Refs<nat>(roots) ==> r in Alive(h)
    requires rt.Valid()
    modifies rt
    ensures rt.Since(old(rt.h.data), old(rt.Mine())) && (forall r :: r in Refs<nat>(back) ==> r in rt.Mine())
    ensures IsArchive(h.data, order, roots, a) && order == PostAll(h.data, Refs<nat>(roots), |h.data|, [])
    ensures Shapes<nat>(back) == Shapes<nat>(roots) && SameTrees(rt.h.data, Refs<nat>(back), h.data, Refs<nat>(roots))
    ensures AllRebuilt(rt.h.data, rt.Mine(), copies, a.nodes) && |copies| == |order|
    ensures forall i, k :: 0 <= i < k < |order| ==> copies[i].n != copies[k].n
  {
    var written := Serialize(h, roots);
    a := written.value;
    order := PostAll(h.data, Refs<nat>(roots), |h.data|, []);
    CollectsExactly(h.data, Refs<nat>(roots));
    ArchiveIsGraph(h.data, order, roots, a);
    RootsBackward(h.data, order, roots, a);
    var read;
    read, copies := Deserialize(rt, a);
    back := read.value;
    ReadBack(h, order, roots, a, rt.h, back);
    OrderAlive(h, roots);
    forall i, k | 0 <= i < k < |order| ensures copies[i].n != copies[k].n {
      EntriesDiffer(h, order, roots, a, i, k);
      assert ThreadOk(rt.h, rt.me);
      SharedAsWritten(rt.h, rt.Mine(), copies, a.nodes, i, k);
    }
  }

  lemma OrderAlive(h: Heap, roots: seq<Field<nat>>)
    requires GraphOk(h) && forall r :: r in Refs<nat>(roots) ==> r in Alive(h)
    ensures forall i :: 0 <= i < |Refs<nat>(roots)| ==> Refs<nat>(roots)[i] < |h.data|
    ensures forall q :: q in PostAll(h.data, Refs<nat>(roots), |h.data|, []) ==> q in Alive(h)
  {
    AliveDistinct(h);
    var rs := Refs<nat>(roots);
    forall i | 0 <= i < |rs| ensures rs[i] < |h.data| && rs[i] in Alive(h) { assert rs[i] in rs; }
    PostAllSame(h.data, Alive(h), rs, |h.data|, [], h.data, Alive(h), rs, |h.data|, []);
  }

  /** Within one process, while the roots are held: reading an archive of them gives the
      very same references. */
  method SaveAndLoad(rt: Runtime, roots: seq<Field<nat>>) returns (back: seq<Field<nat>>)
    requires rt.Valid() && Backward(rt.h.data, Struct(0, roots), |rt.h.data|)
    requires forall r :: r in Refs<nat>(roots) ==> r in rt.Mine()
    modifies rt
    ensures rt.Since(old(rt.h.data), old(rt.Mine()))
    ensures back == roots
  {
    assert ThreadOk(rt.h, rt.me);
    var a; ghost var order, copies;
    back, a, order, copies := Transfer(rt.h, roots, rt);
    assert ThreadOk(rt.h, rt.me);
    forall j | 0 <= j < |Refs<nat>(roots)| ensures Refs<nat>(back)[j] == Refs<nat>(roots)[j] {
      assert Refs<nat>(back)[j] in Refs<nat>(back) && Refs<nat>(roots)[j] in Refs<nat>(roots);
      UnfoldPrefix(old(rt.h.data), rt.h.data, Refs<nat>(roots)[j]);
      SameNode(rt.h, Refs<nat>(back)[j], Refs<nat>(roots)[j]);
    }
    assert Refs<nat>(back) == Refs<nat>(roots);
    SameStruct(Struct(0, back), Struct(0, roots));
  }

  /** Writing again, from the heap an archive was read into, gives the same archive. */
  method WriteAgain(h: Heap, roots: seq<Field<nat>>, rt: Runtime) returns (a: Archive, again: Archive)
    requires Inv(h) && Backward(h.data, Struct(0, roots), |h.data|)
    requires forall r :: r in Refs<nat>(roots) ==> r in Alive(h)
    requires rt.Valid()
    modifies rt
    ensures IsArchive(h.data, PostAll(h.data, Refs<nat>(roots), |h.data|, []), roots, a)
    ensures again == a
  {
    var back; ghost var order, copies;
    back, a, order, copies := Transfer(h, roots, rt);
    assert ThreadOk(rt.h, rt.me);
    OrderAlive(rt.h, back);
    OrderAlive(h, roots);
    var written := Serialize(rt.h, back);
    again := written.value;
    AliveDistinct(h);
    AliveDistinct(rt.h);
    forall i | 0 <= i < |Refs<nat>(back)|
      ensures Refs<nat>(back)[i] in Alive(rt.h)
    {
      assert Refs<nat>(back)[i] in Refs<nat>(back);
    }
    forall i | 0 <= i < |Refs<nat>(roots)|
      ensures Refs<nat>(roots)[i] in Alive(h)
    {
      assert Refs<nat>(roots)[i] in Refs<nat>(roots);
    }
    ArchivesAreCanonical(h.data, Alive(h), roots, order, a,
                         rt.h.data, Alive(rt.h), back, PostAll(rt.h.data, Refs<nat>(back), |rt.h.data|, []), again);
  }
}
