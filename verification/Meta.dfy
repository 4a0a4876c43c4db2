/** Cached metadata (hirpdag/src/base/meta.rs): saturating counts and heights, and flags. */
module Metadata {
  import opened Basics
  import opened Fields
  import opened Graph

  const COUNT_MAX: nat := 0xFFFF_FFFF
  const HEIGHT_MAX: nat := 0xFFFF

  /** The bits that are set in a `u16`. */
  type Flags = set<nat>

  /** `count` is a `u32`, `height` a `u16`. */
  datatype Meta = Meta(count: nat, height: nat, flags: Flags)

  const ZERO: Meta := Meta(0, 0, {})

  function SaturatingAdd(a: nat, b: nat, max: nat): nat {
    if a + b > max then max else a + b
  }

  function Increment(m: Meta): Meta {
    m.(count := SaturatingAdd(m.count, 1, COUNT_MAX), height := SaturatingAdd(m.height, 1, HEIGHT_MAX))
  }

  function AddFlags(m: Meta, flags: Flags): Meta {
    m.(flags := m.flags + flags)
  }

  function Fold(m: Meta, n: Meta): Meta {
    Meta(SaturatingAdd(m.count, n.count, COUNT_MAX), Max(m.height, n.height), m.flags + n.flags)
  }

  /** `hirpdag_compute_meta` of a field; references have the metadata cached in their node. */
  function FieldMeta(f: Field<Meta>): Meta {
    match f
    case Ref(_, m) => m
    case Present(g) => FieldMeta(g)
    case Vec(fs) => SumFrom(ZERO, fs)
    case Variant(_, g) => FieldMeta(g)
    case _ => ZERO
  }

  /** `sum`: folds from the left. */
  function SumFrom(acc: Meta, fs: seq<Field<Meta>>): Meta
    decreases fs
  {
    if fs == [] then acc else SumFrom(Fold(acc, FieldMeta(fs[0])), fs[1..])
  }

  /** The metadata of a struct; `own` is its `hirpdag_flags`. */
  function StructMeta(d: Struct<Meta>, own: Flags): Meta {
    AddFlags(Increment(SumFrom(ZERO, d.fields)), own)
  }

  // ---------------------------------------------------------------- what it should be

  datatype Exact = Exact(count: nat, height: nat, flags: Flags)

  function Clamp(e: Exact): Meta {
    Meta(Min(e.count, COUNT_MAX), Min(e.height, HEIGHT_MAX), e.flags)
  }

  function Join(a: Exact, b: Exact): Exact {
    Exact(a.count + b.count, Max(a.height, b.height), a.flags + b.flags)
  }

  function JoinAll(es: seq<Exact>): Exact {
    if es == [] then Exact(0, 0, {}) else Join(es[0], JoinAll(es[1..]))
  }

  /** Nodes of the tree, nodes on its longest downward path, flags anywhere in it. */
  ghost function TreeExact(own: Struct<Hole> -> Flags, t: Tree): (e: Exact)
    decreases t, 1, 0
  {
    var e := JoinAll(KidsExact(own, t, 0));
    Exact(1 + e.count, 1 + e.height, e.flags + own(t.shape))
  }

  ghost function KidsExact(own: Struct<Hole> -> Flags, t: Tree, i: nat): (es: seq<Exact>)
    requires i <= |t.kids|
    ensures |es| == |t.kids| - i && forall j :: 0 <= j < |es| ==> es[j] == TreeExact(own, t.kids[i + j])
    decreases t, 0, |t.kids| - i
  {
    if i == |t.kids| then [] else [TreeExact(own, t.kids[i])] + KidsExact(own, t, i + 1)
  }

  lemma {:induction false} JoinAllHeight(es: seq<Exact>)
    ensures forall j :: 0 <= j < |es| ==> es[j].height <= JoinAll(es).height
    ensures JoinAll(es).height > 0 ==> exists j :: 0 <= j < |es| && es[j].height == JoinAll(es).height
  {
    if es != [] {
      JoinAllHeight(es[1..]);
      if j :| 0 <= j < |es[1..]| && es[1..][j].height == JoinAll(es[1..]).height {
        assert es[j + 1].height == JoinAll(es[1..]).height;
      }
      assert forall j :: 0 < j < |es| ==> es[j] == es[1..][j - 1];
    }
  }

  lemma {:induction false} JoinAllFlags(es: seq<Exact>, bit: nat)
    ensures bit in JoinAll(es).flags <==> exists j :: 0 <= j < |es| && bit in es[j].flags
  {
    if es != [] {
      JoinAllFlags(es[1..], bit);
      if j :| 0 <= j < |es[1..]| && bit in es[1..][j].flags {
        assert bit in es[j + 1].flags;
      }
      assert forall j :: 0 < j < |es| ==> es[j] == es[1..][j - 1];
    }
  }

  /** There is a downward path of `k` nodes. */
  ghost predicate HasPath(t: Tree, k: nat) {
    k == 1 || (k > 1 && exists i :: 0 <= i < |t.kids| && HasPath(t.kids[i], k - 1))
  }

  lemma {:induction false} HeightIsLongestPath(own: Struct<Hole> -> Flags, t: Tree, k: nat)
    ensures HasPath(t, k) <==> 1 <= k <= TreeExact(own, t).height
    decreases k
  {
    if k > 1 {
      var es := KidsExact(own, t, 0);
      JoinAllHeight(es);
      forall i | 0 <= i < |t.kids| ensures HasPath(t.kids[i], k - 1) <==> k - 1 <= es[i].height {
        HeightIsLongestPath(own, t.kids[i], k - 1);
      }
    }
  }

  /** There is a leaf `k` steps below. */
  ghost predicate LeafAt(t: Tree, k: nat) {
    (k == 0 && t.kids == []) || (k > 0 && exists i :: 0 <= i < |t.kids| && LeafAt(t.kids[i], k - 1))
  }

  lemma {:induction false} LeafIsPath(t: Tree, k: nat)
    requires LeafAt(t, k)
    ensures HasPath(t, k + 1)
    decreases k
  {
    if k > 0 {
      var i :| 0 <= i < |t.kids| && LeafAt(t.kids[i], k - 1);
      LeafIsPath(t.kids[i], k - 1);
    }
  }

  lemma {:induction false} LeafAtHeight(own: Struct<Hole> -> Flags, t: Tree)
    ensures TreeExact(own, t).height >= 1 && LeafAt(t, TreeExact(own, t).height - 1)
    decreases t
  {
    var es := KidsExact(own, t, 0);
    if es != [] {
      var j := Highest(own, t);
      LeafAtHeight(own, t.kids[j]);
      LeafBelow(t, j, TreeExact(own, t.kids[j]).height - 1);
    }
  }

  /** A child of the greatest height. */
  lemma Highest(own: Struct<Hole> -> Flags, t: Tree) returns (j: nat)
    requires t.kids != []
    ensures j < |t.kids| && TreeExact(own, t).height == 1 + TreeExact(own, t.kids[j]).height
  {
    var es := KidsExact(own, t, 0);
    JoinAllHeight(es);
    assert es[0].height >= 1;
    j :| 0 <= j < |es| && es[j].height == JoinAll(es).height;
  }

  lemma LeafBelow(t: Tree, j: nat, k: nat)
    requires j < |t.kids| && LeafAt(t.kids[j], k)
    ensures LeafAt(t, k + 1)
  {
  }

  lemma LeafWithinHeight(own: Struct<Hole> -> Flags, t: Tree, k: nat)
    requires LeafAt(t, k)
    ensures k <= TreeExact(own, t).height - 1
  {
    LeafIsPath(t, k);
    HeightIsLongestPath(own, t, k + 1);
  }

  lemma LeafHeight(own: Struct<Hole> -> Flags, t: Tree)
    requires t.kids == []
    ensures TreeExact(own, t).height == 1
  {
    assert KidsExact(own, t, 0) == [];
  }

  /** The height is one more than the distance to the deepest leaf: a leaf has height 1. */
  lemma HeightAndDeepestLeaf(own: Struct<Hole> -> Flags, t: Tree)
    ensures LeafAt(t, TreeExact(own, t).height - 1)
    ensures forall k: nat :: LeafAt(t, k) ==> k <= TreeExact(own, t).height - 1
    ensures t.kids == [] ==> TreeExact(own, t).height == 1
  {
    LeafAtHeight(own, t);
    forall k: nat | LeafAt(t, k) ensures k <= TreeExact(own, t).height - 1 {
      LeafWithinHeight(own, t, k);
    }
    if t.kids == [] { LeafHeight(own, t); }
  }

  /** `u` is the tree or occurs in it. */
  ghost predicate Occurs(u: Tree, t: Tree) {
    u == t || exists i :: 0 <= i < |t.kids| && Occurs(u, t.kids[i])
  }

  /** A flag is set exactly if some node below, or the node itself, sets it. */
  lemma {:induction false} FlagsAreDescendants(own: Struct<Hole> -> Flags, t: Tree, bit: nat)
    ensures bit in TreeExact(own, t).flags <==> exists u :: Occurs(u, t) && bit in own(u.shape)
    decreases t
  {
    var es := KidsExact(own, t, 0);
    JoinAllFlags(es, bit);
    forall i | 0 <= i < |t.kids|
      ensures bit in es[i].flags <==> exists u :: Occurs(u, t.kids[i]) && bit in own(u.shape)
    {
      FlagsAreDescendants(own, t.kids[i], bit);
    }
    if bit in own(t.shape) {
      assert Occurs(t, t);
    }
    if u :| Occurs(u, t) && u != t && bit in own(u.shape) {
      var i :| 0 <= i < |t.kids| && Occurs(u, t.kids[i]);
      assert bit in es[i].flags;
    }
    if i :| 0 <= i < |t.kids| && bit in es[i].flags {
      var u :| Occurs(u, t.kids[i]) && bit in own(u.shape);
      assert Occurs(u, t);
    }
  }

  // ---------------------------------------------------------------- what is counted

  /** All positions of a tree. */
  ghost function Positions(t: Tree): (ps: set<seq<nat>>)
    ensures forall p :: p in ps <==> IsPosition(t, p)
    decreases t, 1, 0
  {
    {[]} + PositionsFrom(t, 0)
  }

  /** Those in the children from the ith on. */
  ghost function PositionsFrom(t: Tree, i: nat): (ps: set<seq<nat>>)
    requires i <= |t.kids|
    ensures forall p: seq<nat> :: p in ps <==> p != [] && i <= p[0] && IsPosition(t, p)
    decreases t, 0, |t.kids| - i
  {
    if i == |t.kids| then {} else Under(i, Positions(t.kids[i])) + PositionsFrom(t, i + 1)
  }

  ghost function Under(i: nat, ps: set<seq<nat>>): (qs: set<seq<nat>>)
    ensures forall q: seq<nat> :: q in qs <==> q != [] && q[0] == i && q[1..] in ps
  {
    var qs := set p | p in ps :: [i] + p;
    assert forall p | p in ps :: ([i] + p)[1..] == p;
    assert forall q: seq<nat> | q != [] && q[0] == i && q[1..] in ps :: q == [i] + q[1..];
    qs
  }

  lemma {:induction false} UnderSize(i: nat, ps: set<seq<nat>>)
    ensures |Under(i, ps)| == |ps|
    decreases |ps|
  {
    if ps == {} {
      assert Under(i, ps) == {};
    } else {
      var p :| p in ps;
      UnderSize(i, ps - {p});
      assert ([i] + p)[1..] == p;
      assert forall q: seq<nat> | q != [] && q[0] == i && q[1..] == p :: q == [i] + p;
      assert Under(i, ps) == Under(i, ps - {p}) + {[i] + p};
    }
  }

  /** The exact count is the number of positions: a node that is reached along several paths
      counts once for each. */
  lemma {:induction false} CountIsPositions(own: Struct<Hole> -> Flags, t: Tree)
    ensures TreeExact(own, t).count == |Positions(t)|
    decreases t, 1, 0
  {
    CountFrom(own, t, 0);
    assert [] !in PositionsFrom(t, 0);
  }

  lemma {:induction false} CountFrom(own: Struct<Hole> -> Flags, t: Tree, i: nat)
    requires i <= |t.kids|
    ensures JoinAll(KidsExact(own, t, i)).count == |PositionsFrom(t, i)|
    decreases t, 0, |t.kids| - i
  {
    if i < |t.kids| {
      CountIsPositions(own, t.kids[i]);
      CountFrom(own, t, i + 1);
      UnderSize(i, Positions(t.kids[i]));
      assert KidsExact(own, t, i)[1..] == KidsExact(own, t, i + 1);
      assert Under(i, Positions(t.kids[i])) !! PositionsFrom(t, i + 1);
    }
  }

  // ---------------------------------------------------------------- saturation loses nothing else

  lemma FoldClamps(a: Exact, b: Exact)
    ensures Fold(Clamp(a), Clamp(b)) == Clamp(Join(a, b))
  {
  }

  lemma {:induction false} JoinAllAppend(es: seq<Exact>, fs: seq<Exact>)
    ensures JoinAll(es + fs) == Join(JoinAll(es), JoinAll(fs))
  {
    if es == [] {
      assert es + fs == fs;
    } else {
      assert (es + fs)[1..] == es[1..] + fs;
      JoinAllAppend(es[1..], fs);
      JoinAssociates(es[0], JoinAll(es[1..]), JoinAll(fs));
    }
  }

  lemma JoinAssociates(a: Exact, b: Exact, c: Exact)
    ensures Join(Join(a, b), c) == Join(a, Join(b, c))
  {
    assert (a.flags + b.flags) + c.flags == a.flags + (b.flags + c.flags);
  }

  lemma {:induction false} FieldMetaClamps(f: Field<Meta>, es: seq<Exact>)
    requires Clamps(RefsIn(f), es)
    ensures FieldMeta(f) == Clamp(JoinAll(es))
  {
    match f
    case Ref(_, m) => JoinOne(es); assert RefsIn(f)[0] == m;
    case Present(g) => FieldMetaClamps(g, es);
    case Variant(_, g) => FieldMetaClamps(g, es);
    case Vec(fs) => SumClamps(Exact(0, 0, {}), fs, es); JoinNothing(JoinAll(es));
    case _ => assert es == [];
  }

  lemma JoinNothing(e: Exact)
    ensures Join(Exact(0, 0, {}), e) == e && Join(e, Exact(0, 0, {})) == e
  {
  }

  lemma JoinOne(es: seq<Exact>)
    requires |es| == 1
    ensures JoinAll(es) == es[0]
  {
    JoinNothing(es[0]);
    assert es[1..] == [];
  }

  lemma {:induction false} SumClamps(acc: Exact, fs: seq<Field<Meta>>, es: seq<Exact>)
    requires Clamps(Refs(fs), es)
    ensures SumFrom(Clamp(acc), fs) == Clamp(Join(acc, JoinAll(es)))
    decreases fs
  {
    if fs == [] {
      JoinNothing(acc);
    } else {
      var k := |RefsIn(fs[0])|;
      var head, tail := es[..k], es[k..];
      assert Refs(fs)[..k] == RefsIn(fs[0]) && Refs(fs)[k..] == Refs(fs[1..]);
      ClampsSplit(Refs(fs), es, k);
      FieldMetaClamps(fs[0], head);
      FoldClamps(acc, JoinAll(head));
      SumClamps(Join(acc, JoinAll(head)), fs[1..], tail);
      JoinSplit(acc, es, k);
    }
  }

  /** The metadata `ms` is exact up to clamping. */
  ghost predicate Clamps(ms: seq<Meta>, es: seq<Exact>) {
    |ms| == |es| && forall i :: 0 <= i < |es| ==> ms[i] == Clamp(es[i])
  }

  lemma ClampsSplit(ms: seq<Meta>, es: seq<Exact>, k: nat)
    requires Clamps(ms, es) && k <= |es|
    ensures Clamps(ms[..k], es[..k]) && Clamps(ms[k..], es[k..])
  {
  }

  lemma JoinSplit(acc: Exact, es: seq<Exact>, k: nat)
    requires k <= |es|
    ensures Join(Join(acc, JoinAll(es[..k])), JoinAll(es[k..])) == Join(acc, JoinAll(es))
  {
    assert es[..k] + es[k..] == es;
    JoinAllAppend(es[..k], es[k..]);
    JoinAssociates(acc, JoinAll(es[..k]), JoinAll(es[k..]));
  }

  lemma FinishClamps(e: Exact, own: Flags)
    ensures AddFlags(Increment(Clamp(e)), own) == Clamp(Exact(1 + e.count, 1 + e.height, e.flags + own))
  {
  }

  /** However a struct nests its fields and wherever sums saturate on the way: if what is
      cached below is exact up to clamping, so is the result. */
  lemma StructMetaClamps(d: Struct<Meta>, own: Struct<Hole> -> Flags, t: Tree)
    requires t.shape == Shape(d) && |t.kids| == |Refs(d.fields)|
    requires forall i :: 0 <= i < |t.kids| ==> Refs(d.fields)[i] == Clamp(TreeExact(own, t.kids[i]))
    ensures StructMeta(d, own(Shape(d))) == Clamp(TreeExact(own, t))
  {
    SumClamps(Exact(0, 0, {}), d.fields, KidsExact(own, t, 0));
    JoinNothing(JoinAll(KidsExact(own, t, 0)));
    FinishClamps(JoinAll(KidsExact(own, t, 0)), own(t.shape));
  }
}
