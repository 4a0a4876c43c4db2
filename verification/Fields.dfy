/** The values a node is made of. The code generator knows structs whose fields are
    numbers, strings, references to nodes, and `Option`, `Vec` and enums of such
    (hirpdag_derive/src/lib.rs); all of them are one nested datatype here, with whatever
    stands for a reference as the parameter `R`. */
module Fields {

  datatype Field<R> =
    | Num(n: int)
    | Text(s: string)
    | Ref(ty: nat, r: R)                      // a reference to a struct of type `ty`
    | Absent
    | Present(inner: Field<R>)
    | Vec(items: seq<Field<R>>)
    | Variant(tag: nat, payload: Field<R>)    // enums are stored inline

  datatype Struct<R> = Struct(ty: nat, fields: seq<Field<R>>)

  /** All references, in the order of the fields. */
  function RefsIn<R>(f: Field<R>): seq<R> {
    match f
    case Ref(_, r) => [r]
    case Present(g) => RefsIn(g)
    case Vec(fs) => Refs(fs)
    case Variant(_, g) => RefsIn(g)
    case _ => []
  }

  function Refs<R>(fs: seq<Field<R>>): seq<R> {
    if fs == [] then [] else RefsIn(fs[0]) + Refs(fs[1..])
  }

  /** The struct types they refer to. */
  function TypesIn<R>(f: Field<R>): (ts: seq<nat>)
    ensures |ts| == |RefsIn(f)|
  {
    match f
    case Ref(ty, _) => [ty]
    case Present(g) => TypesIn(g)
    case Vec(fs) => Types(fs)
    case Variant(_, g) => TypesIn(g)
    case _ => []
  }

  function Types<R>(fs: seq<Field<R>>): (ts: seq<nat>)
    ensures |ts| == |Refs(fs)|
  {
    if fs == [] then [] else TypesIn(fs[0]) + Types(fs[1..])
  }

  datatype Hole = Hole

  /** Everything but the references. */
  function ShapeOf<R>(f: Field<R>): Field<Hole> {
    match f
    case Num(n) => Num(n)
    case Text(s) => Text(s)
    case Ref(ty, _) => Ref(ty, Hole)
    case Absent => Absent
    case Present(g) => Present(ShapeOf(g))
    case Vec(fs) => Vec(Shapes(fs))
    case Variant(tag, g) => Variant(tag, ShapeOf(g))
  }

  function Shapes<R>(fs: seq<Field<R>>): seq<Field<Hole>> {
    if fs == [] then [] else [ShapeOf(fs[0])] + Shapes(fs[1..])
  }

  function Shape<R>(d: Struct<R>): Struct<Hole> {
    Struct(d.ty, Shapes(d.fields))
  }

  /** Fills a shape with references, in order. */
  function FillIn<R>(f: Field<Hole>, rs: seq<R>): Field<R>
    requires |rs| == |RefsIn(f)|
  {
    match f
    case Num(n) => Num(n)
    case Text(s) => Text(s)
    case Ref(ty, _) => Ref(ty, rs[0])
    case Absent => Absent
    case Present(g) => Present(FillIn(g, rs))
    case Vec(fs) => Vec(Fill(fs, rs))
    case Variant(tag, g) => Variant(tag, FillIn(g, rs))
  }

  function Fill<R>(fs: seq<Field<Hole>>, rs: seq<R>): seq<Field<R>>
    requires |rs| == |Refs(fs)|
  {
    if fs == [] then []
    else
      var k := |RefsIn(fs[0])|;
      [FillIn(fs[0], rs[..k])] + Fill(fs[1..], rs[k..])
  }

  lemma {:induction false} ShapeOfRefs<R>(f: Field<R>)
    ensures |RefsIn(ShapeOf(f))| == |RefsIn(f)| && TypesIn(ShapeOf(f)) == TypesIn(f)
    ensures FillIn(ShapeOf(f), RefsIn(f)) == f
  {
    match f
    case Present(g) => ShapeOfRefs(g);
    case Variant(_, g) => ShapeOfRefs(g);
    case Vec(fs) => ShapesRefs(fs);
    case _ =>
  }

  /** Shape and references together are the value. */
  lemma {:induction false} ShapesRefs<R>(fs: seq<Field<R>>)
    ensures |Refs(Shapes(fs))| == |Refs(fs)| && Types(Shapes(fs)) == Types(fs)
    ensures Fill(Shapes(fs), Refs(fs)) == fs
  {
    if fs != [] {
      ShapeOfRefs(fs[0]);
      ShapesRefs(fs[1..]);
      var ss := Shapes(fs);
      assert ss[0] == ShapeOf(fs[0]) && ss[1..] == Shapes(fs[1..]);
      var k := |RefsIn(fs[0])|;
      assert Refs(fs)[..k] == RefsIn(fs[0]) && Refs(fs)[k..] == Refs(fs[1..]);
    }
  }

  lemma {:induction false} FillInShape<R>(f: Field<Hole>, rs: seq<R>)
    requires |rs| == |RefsIn(f)|
    ensures ShapeOf(FillIn(f, rs)) == f && RefsIn(FillIn(f, rs)) == rs
  {
    match f
    case Present(g) => FillInShape(g, rs);
    case Variant(_, g) => FillInShape(g, rs);
    case Vec(fs) => FillShape(fs, rs);
    case Ref(_, h) => assert h == Hole && rs == [rs[0]];
    case _ =>
  }

  lemma {:induction false} FillShape<R>(fs: seq<Field<Hole>>, rs: seq<R>)
    requires |rs| == |Refs(fs)|
    ensures Shapes(Fill(fs, rs)) == fs && Refs(Fill(fs, rs)) == rs
  {
    if fs != [] {
      var k := |RefsIn(fs[0])|;
      FillInShape(fs[0], rs[..k]);
      FillShape(fs[1..], rs[k..]);
      var gs := Fill(fs, rs);
      assert gs[0] == FillIn(fs[0], rs[..k]) && gs[1..] == Fill(fs[1..], rs[k..]);
    }
  }

  /** Structs compare equal exactly when shape and references do. */
  lemma SameStruct<R>(d: Struct<R>, e: Struct<R>)
    ensures d == e <==> Shape(d) == Shape(e) && Refs(d.fields) == Refs(e.fields)
  {
    ShapesRefs(d.fields);
    ShapesRefs(e.fields);
  }
}

/** Tables of structs that refer backwards, and the trees they unfold to. Heaps and archives
    are both such tables. */
module Graph {
  import opened Fields

  datatype Tree = Tree(shape: Struct<Hole>, kids: seq<Tree>)

  /** Following these child indices downward leads to a node of the tree. */
  ghost predicate IsPosition(t: Tree, p: seq<nat>)
    decreases |p|
  {
    p == [] || (p[0] < |t.kids| && IsPosition(t.kids[p[0]], p[1..]))
  }

  ghost function SubtreeAt(t: Tree, p: seq<nat>): Tree
    requires IsPosition(t, p)
    decreases |p|
  {
    if p == [] then t else SubtreeAt(t.kids[p[0]], p[1..])
  }

  /** A struct that refers only to earlier entries than `n`, each of the right type. */
  predicate Backward(nodes: seq<Struct<nat>>, d: Struct<nat>, n: nat) {
    forall i | 0 <= i < |Refs(d.fields)| ::
      Refs(d.fields)[i] < n && Refs(d.fields)[i] < |nodes| && nodes[Refs(d.fields)[i]].ty == Types(d.fields)[i]
  }

  ghost predicate IsGraph(nodes: seq<Struct<nat>>) {
    forall n :: 0 <= n < |nodes| ==> Backward(nodes, nodes[n], n)
  }

  function Kids(nodes: seq<Struct<nat>>, n: nat): seq<nat>
    requires n < |nodes|
  {
    Refs(nodes[n].fields)
  }

  lemma KidsBackward(nodes: seq<Struct<nat>>, n: nat, r: nat)
    requires IsGraph(nodes) && n < |nodes| && r in Kids(nodes, n)
    ensures r < n
  {
    assert Backward(nodes, nodes[n], n);
  }

  function Unfold(nodes: seq<Struct<nat>>, n: nat): (t: Tree)
    requires IsGraph(nodes) && n < |nodes|
    decreases n, 1, 0
  {
    assert Backward(nodes, nodes[n], n);
    Tree(Shape(nodes[n]), Unfolds(nodes, Kids(nodes, n), n))
  }

  function Unfolds(nodes: seq<Struct<nat>>, rs: seq<nat>, n: nat): (ts: seq<Tree>)
    requires IsGraph(nodes) && n <= |nodes| && forall i :: 0 <= i < |rs| ==> rs[i] < n
    ensures |ts| == |rs| && forall i :: 0 <= i < |rs| ==> ts[i] == Unfold(nodes, rs[i])
    decreases n, 0, |rs|
  {
    if rs == [] then [] else [Unfold(nodes, rs[0])] + Unfolds(nodes, rs[1..], n)
  }

  lemma UnfoldKids(nodes: seq<Struct<nat>>, n: nat)
    requires IsGraph(nodes) && n < |nodes|
    ensures Unfold(nodes, n).shape == Shape(nodes[n]) && |Unfold(nodes, n).kids| == |Kids(nodes, n)|
    ensures forall i :: 0 <= i < |Kids(nodes, n)| ==>
      Kids(nodes, n)[i] < n && Unfold(nodes, n).kids[i] == Unfold(nodes, Kids(nodes, n)[i])
  {
    assert Backward(nodes, nodes[n], n);
  }

  /** The node at a position of the unfolding. */
  ghost function NodeAt(nodes: seq<Struct<nat>>, n: nat, p: seq<nat>): (m: nat)
    requires IsGraph(nodes) && n < |nodes| && IsPosition(Unfold(nodes, n), p)
    ensures m < |nodes| && Unfold(nodes, m) == SubtreeAt(Unfold(nodes, n), p)
    decreases |p|
  {
    UnfoldKids(nodes, n);
    if p == [] then n else NodeAt(nodes, Kids(nodes, n)[p[0]], p[1..])
  }

  /** Same shape and same unfoldings of the references make the same unfolding. */
  lemma SameUnfold(nodes: seq<Struct<nat>>, n: nat, nodes': seq<Struct<nat>>, n': nat)
    requires IsGraph(nodes) && n < |nodes| && IsGraph(nodes') && n' < |nodes'|
    requires Shape(nodes[n]) == Shape(nodes'[n']) && |Kids(nodes, n)| == |Kids(nodes', n')|
    requires forall i :: 0 <= i < |Kids(nodes, n)| && Kids(nodes, n)[i] < n && Kids(nodes', n')[i] < n' ==>
      Unfold(nodes, Kids(nodes, n)[i]) == Unfold(nodes', Kids(nodes', n')[i])
    ensures Unfold(nodes, n) == Unfold(nodes', n')
  {
    UnfoldKids(nodes, n);
    UnfoldKids(nodes', n');
    assert Unfold(nodes, n).kids == Unfold(nodes', n').kids;
  }

  /** Later entries do not matter. */
  lemma {:induction false} UnfoldPrefix(nodes: seq<Struct<nat>>, nodes': seq<Struct<nat>>, n: nat)
    requires IsGraph(nodes) && IsGraph(nodes') && nodes <= nodes' && n < |nodes|
    ensures Unfold(nodes, n) == Unfold(nodes', n)
  {
    UnfoldKids(nodes, n);
    forall i | 0 <= i < |Kids(nodes, n)|
      ensures Unfold(nodes, Kids(nodes, n)[i]) == Unfold(nodes', Kids(nodes', n)[i])
    {
      UnfoldPrefix(nodes, nodes', Kids(nodes, n)[i]);
    }
    SameUnfold(nodes, n, nodes', n);
  }

  lemma GraphSnoc(nodes: seq<Struct<nat>>, d: Struct<nat>)
    requires IsGraph(nodes) && Backward(nodes, d, |nodes|)
    ensures IsGraph(nodes + [d])
  {
    forall n | 0 <= n < |nodes + [d]| ensures Backward(nodes + [d], (nodes + [d])[n], n) {
      if n < |nodes| { assert Backward(nodes, nodes[n], n); }
    }
  }

  // ---------------------------------------------------------------- no two entries alike

  /** A set of entries closed under reference in which no two hold the same value. */
  ghost predicate Distinct(nodes: seq<Struct<nat>>, s: set<nat>) {
    && (forall n :: n in s ==> n < |nodes| && forall r :: r in Kids(nodes, n) ==> r in s)
    && (forall m, n :: m in s && n in s && nodes[m] == nodes[n] ==> m == n)
  }

  /** Comparing shallowly, references by identity, is comparing deeply. */
  lemma {:induction false} UnfoldInjective(nodes: seq<Struct<nat>>, s: set<nat>, m: nat, n: nat)
    requires IsGraph(nodes) && Distinct(nodes, s) && m in s && n in s
    ensures Unfold(nodes, m) == Unfold(nodes, n) <==> m == n
    decreases m
  {
    if Unfold(nodes, m) == Unfold(nodes, n) {
      UnfoldKids(nodes, m);
      UnfoldKids(nodes, n);
      forall i | 0 <= i < |Kids(nodes, m)| ensures Kids(nodes, m)[i] == Kids(nodes, n)[i] {
        UnfoldInjective(nodes, s, Kids(nodes, m)[i], Kids(nodes, n)[i]);
      }
      assert Kids(nodes, m) == Kids(nodes, n);
      SameStruct(nodes[m], nodes[n]);
    }
  }
}
