/** Rewriting a DAG through its interning tables, with the shortcut for nodes that do not
    change, against rewriting of trees (hirpdag_derive/src/lib.rs, hirpdag/src/base/rewrite.rs). */
module Rewriting {
  import opened Basics
  import opened Fields
  import opened Graph
  import opened Dag
  import opened DagTheorems
  import opened Runtime
  import opened Archives

  /** The overridden method of a rewriter, for the node it is given and the tree that node
      unfolds to: either what it makes of the node, or `None` where it calls
      `default_rewrite`. What it reads off the node itself, such as the creation ID, may be
      anything. */
  type Rule = (nat, Tree) -> Option<Tree>

  /** One that looks at the tree only. */
  type TreeRule = Tree -> Option<Tree>

  function Anywhere(rule: TreeRule): Rule {
    (n: nat, t: Tree) => rule(t)
  }

  /** As many subtrees as references, of the types the fields ask for. */
  ghost predicate WellTyped(t: Tree) {
    && |t.kids| == |Refs<Hole>(t.shape.fields)|
    && (forall i :: 0 <= i < |t.kids| ==> t.kids[i].shape.ty == Types<Hole>(t.shape.fields)[i] && WellTyped(t.kids[i]))
  }

  /** Rewriting methods are typed: they return a node of the type they are given. */
  ghost predicate Typed(rule: Rule) {
    forall n, t :: rule(n, t).Some? ==> rule(n, t).value.shape.ty == t.shape.ty && WellTyped(rule(n, t).value)
  }

  // ---------------------------------------------------------------- rewriting trees

  ghost function TreeRewrite(rule: TreeRule, t: Tree): Tree {
    match rule(t)
    case Some(u) => u
    case None => Tree(t.shape, seq(|t.kids|, i requires 0 <= i < |t.kids| => TreeRewrite(rule, t.kids[i])))
  }

  /** The tree a node is rewritten to: what the rule says, or the references rewritten. */
  ghost function NodeRewrite(data: seq<Struct<nat>>, rule: Rule, n: nat): Tree
    requires IsGraph(data) && n < |data|
    decreases n
  {
    match rule(n, Unfold(data, n))
    case Some(u) => u
    case None =>
      UnfoldKids(data, n);
      var rs := Kids(data, n);
      Tree(Shape(data[n]), seq(|rs|, i requires 0 <= i < |rs| => NodeRewrite(data, rule, rs[i])))
  }

  /** No rule answers for any node strictly above the position. */
  ghost predicate Reached(data: seq<Struct<nat>>, rule: Rule, n: nat, p: seq<nat>)
    requires IsGraph(data) && n < |data| && IsPosition(Unfold(data, n), p)
    decreases |p|
  {
    UnfoldKids(data, n);
    p == [] || (rule(n, Unfold(data, n)).None? && Reached(data, rule, Kids(data, n)[p[0]], p[1..]))
  }

  /** Rules are applied from the top: at every position that is reached the result has what
      the rule makes of the node there, and if it does not answer, the node's own shape. */
  lemma {:induction false} RewriteByPosition(data: seq<Struct<nat>>, rule: Rule, n: nat, p: seq<nat>)
    requires IsGraph(data) && n < |data| && IsPosition(Unfold(data, n), p) && Reached(data, rule, n, p)
    ensures IsPosition(NodeRewrite(data, rule, n), p)
    ensures var m, u := NodeAt(data, n, p), SubtreeAt(NodeRewrite(data, rule, n), p);
      match rule(m, Unfold(data, m))
      case Some(v) => u == v
      case None => u.shape == Shape(data[m]) && |u.kids| == |Kids(data, m)|
    decreases |p|
  {
    UnfoldKids(data, n);
    if p != [] {
      RewriteByPosition(data, rule, Kids(data, n)[p[0]], p[1..]);
    }
  }

  /** For a rule that looks at trees only, rewriting a node is rewriting its tree. */
  lemma {:induction false} NodeIsTreeRewrite(data: seq<Struct<nat>>, rule: TreeRule, n: nat)
    requires IsGraph(data) && n < |data|
    ensures NodeRewrite(data, Anywhere(rule), n) == TreeRewrite(rule, Unfold(data, n))
    decreases n
  {
    UnfoldKids(data, n);
    if rule(Unfold(data, n)).None? {
      forall i | 0 <= i < |Kids(data, n)|
        ensures NodeRewrite(data, Anywhere(rule), Kids(data, n)[i]) == TreeRewrite(rule, Unfold(data, n).kids[i])
      {
        NodeIsTreeRewrite(data, rule, Kids(data, n)[i]);
      }
      assert NodeRewrite(data, Anywhere(rule), n).kids == TreeRewrite(rule, Unfold(data, n)).kids;
    }
  }

  /** Nodes added later do not matter. */
  lemma {:induction false} NodeRewritePrefix(data: seq<Struct<nat>>, data': seq<Struct<nat>>, rule: Rule, n: nat)
    requires IsGraph(data) && IsGraph(data') && data <= data' && n < |data|
    ensures NodeRewrite(data, rule, n) == NodeRewrite(data', rule, n)
    decreases n
  {
    UnfoldPrefix(data, data', n);
    UnfoldKids(data, n);
    if rule(n, Unfold(data, n)).None? {
      forall i | 0 <= i < |Kids(data, n)|
        ensures NodeRewrite(data, rule, Kids(data, n)[i]) == NodeRewrite(data', rule, Kids(data, n)[i])
      {
        NodeRewritePrefix(data, data', rule, Kids(data, n)[i]);
      }
      assert NodeRewrite(data, rule, n).kids == NodeRewrite(data', rule, n).kids;
    }
  }

  lemma RewriteKeepsType(data: seq<Struct<nat>>, rule: Rule, n: nat)
    requires Typed(rule) && IsGraph(data) && n < |data|
    ensures NodeRewrite(data, rule, n).shape.ty == data[n].ty
  {
    UnfoldKids(data, n);
  }

  const DEFAULT: Rule := (n: nat, t: Tree) => None

  lemma {:induction false} DefaultKeepsTree(data: seq<Struct<nat>>, n: nat)
    requires IsGraph(data) && n < |data|
    ensures NodeRewrite(data, DEFAULT, n) == Unfold(data, n)
    decreases n
  {
    UnfoldKids(data, n);
    forall i | 0 <= i < |Kids(data, n)|
      ensures NodeRewrite(data, DEFAULT, Kids(data, n)[i]) == Unfold(data, n).kids[i]
    {
      DefaultKeepsTree(data, Kids(data, n)[i]);
    }
    assert NodeRewrite(data, DEFAULT, n).kids == Unfold(data, n).kids;
  }

  // ---------------------------------------------------------------- rewriting nodes

  /** `rs'` are held nodes that unfold to the rewritten unfoldings of `rs`. */
  ghost predicate Rewritten(data: seq<Struct<nat>>, mine: set<nat>, rule: Rule, rs: seq<nat>, rs': seq<nat>) {
    && IsGraph(data) && |rs| == |rs'|
    && (forall j :: 0 <= j < |rs| ==>
          rs[j] < |data| && rs'[j] < |data| && rs'[j] in mine && Unfold(data, rs'[j]) == NodeRewrite(data, rule, rs[j]))
  }

  lemma RewrittenStays(data: seq<Struct<nat>>, mine: set<nat>, rule: Rule, rs: seq<nat>, rs': seq<nat>,
                       data': seq<Struct<nat>>, mine': set<nat>)
    requires Rewritten(data, mine, rule, rs, rs') && IsGraph(data') && data <= data' && mine <= mine'
    ensures Rewritten(data', mine', rule, rs, rs')
  {
    forall j | 0 <= j < |rs|
      ensures Unfold(data', rs'[j]) == NodeRewrite(data', rule, rs[j])
    {
      NodeRewritePrefix(data, data', rule, rs[j]);
      UnfoldPrefix(data, data', rs'[j]);
    }
  }

  lemma RewrittenAppend(data: seq<Struct<nat>>, mine: set<nat>, rule: Rule, rs: seq<nat>, rs': seq<nat>, qs: seq<nat>,
                        qs': seq<nat>)
    requires Rewritten(data, mine, rule, rs, rs') && Rewritten(data, mine, rule, qs, qs')
    ensures Rewritten(data, mine, rule, rs + qs, rs' + qs')
  {
  }

  /** The rewritten fields of a node make a well-typed struct of held references. */
  lemma RewrittenHolds(h: Heap, me: nat, rule: Rule, fs: seq<Field<nat>>, d: Struct<nat>)
    requires Inv(h) && me < |h.threads| && Typed(rule) && Backward(h.data, Struct(0, fs), |h.data|)
    requires Shapes<nat>(d.fields) == Shapes<nat>(fs)
    requires Rewritten(h.data, h.threads[me].held, rule, Refs<nat>(fs), Refs<nat>(d.fields))
    ensures Holds(h, me, d)
  {
    SameShapes(fs, d.fields);
    forall j | 0 <= j < |Refs<nat>(d.fields)|
      ensures Refs<nat>(d.fields)[j] < |h.data| && Refs<nat>(d.fields)[j] in h.threads[me].held
      ensures h.data[Refs<nat>(d.fields)[j]].ty == Types<nat>(d.fields)[j]
    {
      var r, r' := Refs<nat>(fs)[j], Refs<nat>(d.fields)[j];
      UnfoldKids(h.data, r');
      RewriteKeepsType(h.data, rule, r);
    }
  }

  /** A node with the rewritten fields of another unfolds to its rewritten unfolding. */
  lemma RewrittenUnfolds(data: seq<Struct<nat>>, mine: set<nat>, rule: Rule, r: nat, n: nat)
    requires IsGraph(data) && r < |data| && n < |data| && Shape(data[n]) == Shape(data[r])
    requires Rewritten(data, mine, rule, Kids(data, r), Kids(data, n)) && rule(r, Unfold(data, r)).None?
    ensures Unfold(data, n) == NodeRewrite(data, rule, r)
  {
    UnfoldKids(data, r);
    UnfoldKids(data, n);
    assert Unfold(data, n).kids == NodeRewrite(data, rule, r).kids;
  }

  /** Builds a tree bottom up with the constructors. */
  method InternTree(rt: Runtime, t: Tree) returns (n: nat)
    requires rt.Valid() && WellTyped(t)
    modifies rt
    ensures rt.Since(old(rt.h.data), old(rt.Mine()))
    ensures n in rt.Mine() && n < |rt.h.data| && Unfold(rt.h.data, n) == t
    decreases t, 1
  {
    var rs := InternKids(rt, t);
    var d := Struct(t.shape.ty, Fill<nat>(t.shape.fields, rs));
    FillShape<nat>(t.shape.fields, rs);
    BuiltHolds(rt.h, rt.me, t, rs, d);
    ghost var data0, mine0 := rt.h.data, rt.Mine();
    n := rt.Intern(d);
    KidsStay(data0, mine0, t, rs, rt.h.data, rt.Mine());
    BuiltUnfolds(rt.h.data, rt.Mine(), t, rs, n);
  }

  method InternKids(rt: Runtime, t: Tree) returns (rs: seq<nat>)
    requires rt.Valid() && WellTyped(t)
    modifies rt
    ensures rt.Since(old(rt.h.data), old(rt.Mine()))
    ensures |rs| == |t.kids| && KidsBuilt(rt.h.data, rt.Mine(), t, rs)
    decreases t, 0
  {
    rs := [];
    while |rs| < |t.kids|
      invariant rt.Since(old(rt.h.data), old(rt.Mine()))
      invariant KidsBuilt(rt.h.data, rt.Mine(), t, rs)
    {
      ghost var data0, mine0 := rt.h.data, rt.Mine();
      var r := InternTree(rt, t.kids[|rs|]);
      KidsSnoc(data0, mine0, t, rs, rt.h.data, rt.Mine(), r);
      rs := rs + [r];
    }
  }

  lemma BuiltUnfolds(data: seq<Struct<nat>>, mine: set<nat>, t: Tree, rs: seq<nat>, n: nat)
    requires KidsBuilt(data, mine, t, rs) && |rs| == |t.kids| && n < |data|
    requires Shape(data[n]) == t.shape && Kids(data, n) == rs
    ensures Unfold(data, n) == t
  {
    UnfoldKids(data, n);
    assert Unfold(data, n).kids == t.kids;
  }

  ghost predicate KidsBuilt(data: seq<Struct<nat>>, mine: set<nat>, t: Tree, rs: seq<nat>) {
    && IsGraph(data) && |rs| <= |t.kids|
    && (forall i :: 0 <= i < |rs| ==> rs[i] < |data| && rs[i] in mine && Unfold(data, rs[i]) == t.kids[i])
  }

  lemma KidsStay(data: seq<Struct<nat>>, mine: set<nat>, t: Tree, rs: seq<nat>, data': seq<Struct<nat>>,
                 mine': set<nat>)
    requires KidsBuilt(data, mine, t, rs) && IsGraph(data') && data <= data' && mine <= mine'
    ensures KidsBuilt(data', mine', t, rs)
  {
    forall i | 0 <= i < |rs| ensures Unfold(data', rs[i]) == t.kids[i] {
      UnfoldPrefix(data, data', rs[i]);
    }
  }

  lemma KidsSnoc(data: seq<Struct<nat>>, mine: set<nat>, t: Tree, rs: seq<nat>, data': seq<Struct<nat>>,
                 mine': set<nat>, r: nat)
    requires KidsBuilt(data, mine, t, rs) && IsGraph(data') && data <= data' && mine <= mine'
    requires |rs| < |t.kids| && r < |data'| && r in mine' && Unfold(data', r) == t.kids[|rs|]
    ensures KidsBuilt(data', mine', t, rs + [r])
  {
    KidsStay(data, mine, t, rs, data', mine');
  }

  lemma BuiltHolds(h: Heap, me: nat, t: Tree, rs: seq<nat>, d: Struct<nat>)
    requires me < |h.threads| && KidsBuilt(h.data, h.threads[me].held, t, rs) && WellTyped(t)
    requires |rs| == |t.kids| && Refs<nat>(d.fields) == rs && Shapes<nat>(d.fields) == t.shape.fields
    ensures Holds(h, me, d)
  {
    ShapesRefs<nat>(d.fields);
    forall j | 0 <= j < |rs| ensures h.data[rs[j]].ty == Types<nat>(d.fields)[j] {
      UnfoldKids(h.data, rs[j]);
    }
  }

  /** Nothing the node is made of is overridden. */
  ghost predicate Quiet(data: seq<Struct<nat>>, rule: Rule, n: nat)
    requires IsGraph(data) && n < |data|
    decreases n
  {
    UnfoldKids(data, n);
    rule(n, Unfold(data, n)).None? && forall i :: 0 <= i < |Kids(data, n)| ==> Quiet(data, rule, Kids(data, n)[i])
  }

  ghost predicate AllQuiet(data: seq<Struct<nat>>, rule: Rule, rs: seq<nat>) {
    IsGraph(data) && forall i :: 0 <= i < |rs| ==> rs[i] < |data| && Quiet(data, rule, rs[i])
  }

  lemma {:induction false} QuietStays(data: seq<Struct<nat>>, data': seq<Struct<nat>>, rule: Rule, n: nat)
    requires IsGraph(data) && IsGraph(data') && data <= data' && n < |data|
    ensures Quiet(data, rule, n) <==> Quiet(data', rule, n)
    decreases n
  {
    UnfoldPrefix(data, data', n);
    UnfoldKids(data, n);
    forall i | 0 <= i < |Kids(data, n)|
      ensures Quiet(data, rule, Kids(data, n)[i]) <==> Quiet(data', rule, Kids(data', n)[i])
    {
      QuietStays(data, data', rule, Kids(data, n)[i]);
    }
  }

  lemma AllQuietStays(data: seq<Struct<nat>>, data': seq<Struct<nat>>, rule: Rule, rs: seq<nat>)
    requires AllQuiet(data, rule, rs) && IsGraph(data') && data <= data'
    ensures AllQuiet(data', rule, rs)
  {
    forall i | 0 <= i < |rs| ensures Quiet(data', rule, rs[i]) {
      QuietStays(data, data', rule, rs[i]);
    }
  }

  /** Rewriting a node. `default_rewrite` takes the shortcut if `fast`; without it, every node
      is rebuilt through its constructor. Handles to intermediate results are kept to the
      end, which pins no node that is not pinned anyway: each is part of a node we hold. */
  method Rewrite(rt: Runtime, rule: Rule, r: nat, fast: bool) returns (n: nat)
    requires rt.Valid() && Typed(rule) && r in rt.Mine() && r < |rt.h.data|
    modifies rt
    ensures rt.Since(old(rt.h.data), old(rt.Mine()))
    ensures n in rt.Mine() && n < |rt.h.data|
    ensures Unfold(rt.h.data, n) == NodeRewrite(rt.h.data, rule, r)
    ensures fast && Quiet(old(rt.h.data), rule, r) ==> n == r && rt.interns == old(rt.interns)
    decreases r, 1, 0
  {
    var replaced := rule(r, Unfold(rt.h.data, r));
    if replaced.Some? {
      n := InternTree(rt, replaced.value);
      UnfoldPrefix(old(rt.h.data), rt.h.data, r);
    } else {
      n := DefaultRewrite(rt, rule, r, fast);
    }
  }

  method DefaultRewrite(rt: Runtime, rule: Rule, r: nat, fast: bool) returns (n: nat)
    requires rt.Valid() && Typed(rule) && r in rt.Mine() && r < |rt.h.data| && rule(r, Unfold(rt.h.data, r)).None?
    modifies rt
    ensures rt.Since(old(rt.h.data), old(rt.Mine()))
    ensures n in rt.Mine() && n < |rt.h.data|
    ensures Unfold(rt.h.data, n) == NodeRewrite(rt.h.data, rule, r)
    ensures fast && AllQuiet(old(rt.h.data), rule, old(Kids(rt.h.data, r))) ==> n == r && rt.interns == old(rt.interns)
    decreases r, 0
  {
    var x := rt.h.data[r];
    assert Backward(rt.h.data, x, r);
    var fields := RewriteFields(rt, rule, x.fields, r, fast);
    UnfoldPrefix(old(rt.h.data), rt.h.data, r);
    if fast && fields == x.fields {
      n := r;
    } else {
      ghost var data0, mine0 := rt.h.data, rt.Mine();
      assert Backward(rt.h.data, x, r);
      RewrittenHolds(rt.h, rt.me, rule, x.fields, Struct(x.ty, fields));
      n := rt.Intern(Struct(x.ty, fields));
      UnfoldPrefix(data0, rt.h.data, r);
      RewrittenStays(data0, mine0, rule, Refs<nat>(x.fields), Refs<nat>(fields), rt.h.data, rt.Mine());
    }
    RewrittenUnfolds(rt.h.data, rt.Mine(), rule, r, n);
  }

  /** Rewrites a node that `p` refers to. */
  method RewriteRef(rt: Runtime, rule: Rule, q: nat, p: nat, fast: bool) returns (n: nat)
    requires rt.Valid() && Typed(rule) && p in rt.Mine() && p < |rt.h.data| && q in Kids(rt.h.data, p) && q < p
    modifies rt
    ensures rt.Since(old(rt.h.data), old(rt.Mine()))
    ensures Rewritten(rt.h.data, rt.Mine(), rule, [q], [n])
    ensures fast && Quiet(old(rt.h.data), rule, q) ==> n == q && rt.interns == old(rt.interns)
    decreases q, 2
  {
    rt.CloneFrom(p, q);
    QuietStays(old(rt.h.data), rt.h.data, rule, q);
    n := Rewrite(rt, rule, q, fast);
  }

  /** Rewrites one field of node `p`: the references in it, wherever they are nested. */
  method RewriteField(rt: Runtime, rule: Rule, f: Field<nat>, p: nat, fast: bool) returns (g: Field<nat>)
    requires rt.Valid() && Typed(rule) && p in rt.Mine() && p < |rt.h.data|
    requires forall q :: q in RefsIn<nat>(f) ==> q in Kids(rt.h.data, p)
    modifies rt
    ensures rt.Since(old(rt.h.data), old(rt.Mine())) && ShapeOf<nat>(g) == ShapeOf<nat>(f)
    ensures Rewritten(rt.h.data, rt.Mine(), rule, RefsIn<nat>(f), RefsIn<nat>(g))
    ensures fast && AllQuiet(old(rt.h.data), rule, RefsIn<nat>(f)) ==> g == f && rt.interns == old(rt.interns)
    decreases p, 0, f
  {
    match f
    case Ref(ty, q) =>
      KidsBackward(rt.h.data, p, q);
      assert RefsIn<nat>(f)[0] == q;
      var n := RewriteRef(rt, rule, q, p, fast);
      g := Ref(ty, n);
    case Present(inner) =>
      assert RefsIn<nat>(f) == RefsIn<nat>(inner);
      var x := RewriteField(rt, rule, inner, p, fast);
      g := Present(x);
    case Vec(items) =>
      assert RefsIn<nat>(f) == Refs<nat>(items);
      var xs := RewriteFields(rt, rule, items, p, fast);
      g := Vec(xs);
    case Variant(tag, payload) =>
      assert RefsIn<nat>(f) == RefsIn<nat>(payload);
      var x := RewriteField(rt, rule, payload, p, fast);
      g := Variant(tag, x);
    case _ =>
      g := f;
  }

  method RewriteFields(rt: Runtime, rule: Rule, fs: seq<Field<nat>>, p: nat, fast: bool) returns (gs: seq<Field<nat>>)
    requires rt.Valid() && Typed(rule) && p in rt.Mine() && p < |rt.h.data|
    requires forall q :: q in Refs<nat>(fs) ==> q in Kids(rt.h.data, p)
    modifies rt
    ensures rt.Since(old(rt.h.data), old(rt.Mine())) && Shapes<nat>(gs) == Shapes<nat>(fs)
    ensures Rewritten(rt.h.data, rt.Mine(), rule, Refs<nat>(fs), Refs<nat>(gs))
    ensures fast && AllQuiet(old(rt.h.data), rule, Refs<nat>(fs)) ==> gs == fs && rt.interns == old(rt.interns)
    decreases p, 0, fs
  {
    if fs == [] {
      return [];
    }
    var g := RewriteField(rt, rule, fs[0], p, fast);
    ghost var data0, mine0 := rt.h.data, rt.Mine();
    assert Kids(rt.h.data, p) == old(Kids(rt.h.data, p));
    RestQuiet(old(rt.h.data), data0, rule, fs);
    var rest := RewriteFields(rt, rule, fs[1..], p, fast);
    RewrittenStays(data0, mine0, rule, RefsIn<nat>(fs[0]), RefsIn<nat>(g), rt.h.data, rt.Mine());
    RewrittenAppend(rt.h.data, rt.Mine(), rule, RefsIn<nat>(fs[0]), RefsIn<nat>(g), Refs<nat>(fs[1..]),
                    Refs<nat>(rest));
    gs := [g] + rest;
    assert gs[0] == g && gs[1..] == rest;
  }

  lemma RestQuiet(data: seq<Struct<nat>>, data': seq<Struct<nat>>, rule: Rule, fs: seq<Field<nat>>)
    requires IsGraph(data) && IsGraph(data') && data <= data' && fs != []
    ensures AllQuiet(data, rule, Refs<nat>(fs)) ==>
      AllQuiet(data, rule, RefsIn<nat>(fs[0])) && AllQuiet(data', rule, Refs<nat>(fs[1..]))
  {
    if AllQuiet(data, rule, Refs<nat>(fs)) {
      var k := |RefsIn<nat>(fs[0])|;
      assert forall i :: 0 <= i < k ==> Refs<nat>(fs)[i] == RefsIn<nat>(fs[0])[i];
      assert forall i :: 0 <= i < |Refs<nat>(fs[1..])| ==> Refs<nat>(fs)[k + i] == Refs<nat>(fs[1..])[i];
      AllQuietStays(data, data', rule, Refs<nat>(fs[1..]));
    }
  }

  // ---------------------------------------------------------------- what follows

  /** Taking the shortcut and always rebuilding give the same reference. */
  method ShortcutChangesNothing(rt: Runtime, rule: Rule, r: nat) returns (fast: nat, slow: nat)
    requires rt.Valid() && Typed(rule) && r in rt.Mine() && r < |rt.h.data|
    modifies rt
    ensures rt.Since(old(rt.h.data), old(rt.Mine()))
    ensures fast == slow
  {
    fast := Rewrite(rt, rule, r, true);
    ghost var data0 := rt.h.data;
    slow := Rewrite(rt, rule, r, false);
    NodeRewritePrefix(data0, rt.h.data, rule, r);
    UnfoldPrefix(data0, rt.h.data, fast);
    assert ThreadOk(rt.h, rt.me);
    SameNode(rt.h, fast, slow);
  }

  /** A rewriter that looks at trees only rewrites the DAG to what it rewrites the tree to. */
  method RewriteAsTree(rt: Runtime, rule: TreeRule, r: nat, fast: bool) returns (n: nat)
    requires rt.Valid() && Typed(Anywhere(rule)) && r in rt.Mine() && r < |rt.h.data|
    modifies rt
    ensures rt.Since(old(rt.h.data), old(rt.Mine()))
    ensures n in rt.Mine() && n < |rt.h.data|
    ensures Unfold(rt.h.data, n) == TreeRewrite(rule, Unfold(rt.h.data, r))
  {
    n := Rewrite(rt, Anywhere(rule), r, fast);
    NodeIsTreeRewrite(rt.h.data, rule, r);
  }

  lemma {:induction false} DefaultIsQuiet(data: seq<Struct<nat>>, n: nat)
    requires IsGraph(data) && n < |data|
    ensures Quiet(data, DEFAULT, n)
    decreases n
  {
    UnfoldKids(data, n);
    forall i | 0 <= i < |Kids(data, n)| ensures Quiet(data, DEFAULT, Kids(data, n)[i]) {
      DefaultIsQuiet(data, Kids(data, n)[i]);
    }
  }

  /** A rewriter that overrides nothing returns the reference it was given, with the
      shortcut or without; with it, without looking into any table. */
  method DefaultIsIdentity(rt: Runtime, r: nat, fast: bool) returns (n: nat)
    requires rt.Valid() && r in rt.Mine() && r < |rt.h.data|
    modifies rt
    ensures rt.Since(old(rt.h.data), old(rt.Mine()))
    ensures n == r && (fast ==> rt.interns == old(rt.interns))
  {
    DefaultIsQuiet(rt.h.data, r);
    n := Rewrite(rt, DEFAULT, r, fast);
    DefaultKeepsTree(rt.h.data, r);
    assert ThreadOk(rt.h, rt.me);
    SameNode(rt.h, n, r);
  }
}

/** The variable substitution of test_suite/benches/expr_substitution.rs. */
module Substitution {
  import opened Basics
  import opened Fields
  import opened Graph
  import opened Runtime
  import opened Rewriting

  const EXPR_NODE: nat := 0
  const NUM: nat := 0
  const VAR: nat := 1
  const ADD: nat := 2
  const MUL: nat := 3

  type Env = int -> int

  function Sum(xs: seq<int>): int {
    if xs == [] then 0 else xs[0] + Sum(xs[1..])
  }

  function Product(xs: seq<int>): int {
    if xs == [] then 1 else xs[0] * Product(xs[1..])
  }

  /** The value of an `ExprNode`: its one field is an `ExprKind`. */
  ghost function Eval(t: Tree, env: Env): int {
    if |t.shape.fields| != 1 || !t.shape.fields[0].Variant? then 0
    else
      var kind := t.shape.fields[0];
      var values := seq(|t.kids|, i requires 0 <= i < |t.kids| => Eval(t.kids[i], env));
      if kind.tag == NUM && kind.payload.Num? then kind.payload.n
      else if kind.tag == VAR && kind.payload.Num? then env(kind.payload.n)
      else if kind.tag == ADD then Sum(values)
      else if kind.tag == MUL then Product(values)
      else 0
  }

  function Constant(n: int): Tree {
    Tree(Struct(EXPR_NODE, [Variant(NUM, Num(n))]), [])
  }

  /** `rewrite_ExprNode`: variables below `numVars` become constants. */
  function SubstVars(numVars: int): TreeRule {
    (t: Tree) =>
      if t.shape.ty == EXPR_NODE && |t.shape.fields| == 1 && t.shape.fields[0].Variant?
         && t.shape.fields[0].tag == VAR && t.shape.fields[0].payload.Num? && t.shape.fields[0].payload.n < numVars
      then Some(Constant(t.shape.fields[0].payload.n + 1))
      else None
  }

  lemma SubstVarsTyped(numVars: int)
    ensures Typed(Anywhere(SubstVars(numVars)))
  {
    forall t | SubstVars(numVars)(t).Some?
      ensures SubstVars(numVars)(t).value.shape.ty == t.shape.ty && WellTyped(SubstVars(numVars)(t).value)
    {
      ConstantWellTyped(t.shape.fields[0].payload.n + 1);
    }
  }

  lemma ConstantWellTyped(n: int)
    ensures WellTyped(Constant(n))
  {
    var fs := Constant(n).shape.fields;
    assert fs[1..] == [];
    assert Refs<Hole>(fs) == RefsIn<Hole>(fs[0]) + Refs<Hole>([]);
  }

  /** All nodes of the tree are expressions. */
  ghost predicate IsExpr(t: Tree) {
    t.shape.ty == EXPR_NODE && forall i :: 0 <= i < |t.kids| ==> IsExpr(t.kids[i])
  }

  /** The environment the substitution stands for. */
  function Extended(numVars: int, env: Env): Env {
    (id: int) => if id < numVars then id + 1 else env(id)
  }

  /** The substitution lemma: evaluating the rewritten expression is evaluating the original
      with the substituted variables bound. */
  lemma {:induction false} SubstitutionLemma(numVars: int, t: Tree, env: Env)
    requires IsExpr(t)
    ensures Eval(TreeRewrite(SubstVars(numVars), t), env) == Eval(t, Extended(numVars, env))
  {
    var u := TreeRewrite(SubstVars(numVars), t);
    if SubstVars(numVars)(t).None? {
      forall i | 0 <= i < |t.kids| ensures Eval(u.kids[i], env) == Eval(t.kids[i], Extended(numVars, env)) {
        SubstitutionLemma(numVars, t.kids[i], env);
      }
      assert seq(|u.kids|, i requires 0 <= i < |u.kids| => Eval(u.kids[i], env)) ==
             seq(|t.kids|, i requires 0 <= i < |t.kids| => Eval(t.kids[i], Extended(numVars, env)));
    }
  }

  /** The rewriter on the heap does that. */
  method Substitute(rt: Runtime, numVars: int, r: nat, fast: bool, ghost env: Env) returns (n: nat)
    requires rt.Valid() && r in rt.Mine() && r < |rt.h.data| && IsExpr(Unfold(rt.h.data, r))
    modifies rt
    ensures rt.Since(old(rt.h.data), old(rt.Mine())) && n in rt.Mine() && n < |rt.h.data|
    ensures Eval(Unfold(rt.h.data, n), env) == Eval(Unfold(rt.h.data, r), Extended(numVars, env))
  {
    SubstVarsTyped(numVars);
    n := RewriteAsTree(rt, SubstVars(numVars), r, fast);
    UnfoldPrefix(old(rt.h.data), rt.h.data, r);
    SubstitutionLemma(numVars, Unfold(rt.h.data, r), env);
  }
}
