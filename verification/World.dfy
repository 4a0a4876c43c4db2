/** Weakly referenced nodes that other threads create and drop while a table works
    (the contract of hirpdag_hashconsing/src/reference.rs). */
module World {
  import opened Basics

  /** Nodes that are dead or held exist, and nothing that is held is dead. */
  ghost predicate Sound<D>(data: seq<D>, dead: set<nat>, pinned: multiset<nat>) {
    && (forall n :: n in dead ==> n < |data|)
    && (forall n :: n in pinned ==> n < |data| && n !in dead)
  }

  /** Time goes one way: nodes keep their data and their numbers, and dead nodes stay dead. */
  ghost predicate Advances<D>(data0: seq<D>, dead0: set<nat>, data: seq<D>, dead: set<nat>) {
    data0 <= data && dead0 <= dead
  }

  /** The nodes behind the weak references of a table. An adversary, fixed by `deaths` and
      `births` but otherwise arbitrary, acts before every operation on a reference: it may
      create nodes, and let any node die that is not pinned by a strong handle of ours.
      Dead nodes stay dead, and node numbers are never used again. */
  class World<D(==)> {
    const deaths: nat -> set<nat>
    const births: nat -> seq<D>
    var clock: nat
    var data: seq<D>
    var dead: set<nat>
    var pinned: multiset<nat>
    var metaRuns: nat

    constructor (deaths: nat -> set<nat>, births: nat -> seq<D>)
      ensures Valid() && data == [] && dead == {} && pinned == multiset{} && metaRuns == 0
    {
      this.deaths, this.births := deaths, births;
      clock, data, dead, pinned, metaRuns := 0, [], {}, multiset{}, 0;
    }

    ghost predicate Valid() reads this {
      Sound(data, dead, pinned)
    }

    /** Time has passed since the nodes were `data0`, of which `dead0` were dead. */
    ghost predicate Later(data0: seq<D>, dead0: set<nat>) reads this {
      Valid() && Advances(data0, dead0, data, dead)
    }

    method Elapse()
      requires Valid()
      modifies this
      ensures Later(old(data), old(dead)) && pinned == old(pinned) && metaRuns == old(metaRuns)
      ensures data == old(data) + births(old(clock)) && clock == old(clock) + 1
      ensures dead == old(dead) + (set n | n in deaths(old(clock)) && n < |data| && n !in pinned)
    {
      data := data + births(clock);
      dead := dead + (set n | n in deaths(clock) && n < |data| && n !in pinned);
      clock := clock + 1;
    }

    /** `weak_upgrade`: a strong handle if and only if the node is not dead. */
    method Upgrade(n: nat) returns (r: Option<nat>)
      requires Valid() && n < |data|
      modifies this
      ensures Later(old(data), old(dead)) && metaRuns == old(metaRuns)
      ensures r == if n in dead then None else Some(n)
      ensures pinned == if n in dead then old(pinned) else old(pinned) + multiset{n}
    {
      Elapse();
      if n in dead {
        r := None;
      } else {
        r, pinned := Some(n), pinned + multiset{n};
      }
    }

    /** Dropping a strong handle. */
    method Release(n: nat)
      requires Valid() && n in pinned
      modifies this
      ensures Later(old(data), old(dead)) && metaRuns == old(metaRuns)
      ensures pinned == old(pinned) - multiset{n}
    {
      pinned := pinned - multiset{n};
      Elapse();
    }

    /** `creation_meta` followed by `R::new`: a fresh node, held by the caller. */
    method Create(d: D) returns (n: nat)
      requires Valid()
      modifies this
      ensures Later(old(data), old(dead)) && metaRuns == old(metaRuns) + 1
      ensures |old(data)| <= n < |data| && data[n] == d
      ensures pinned == old(pinned) + multiset{n}
    {
      Elapse();
      metaRuns := metaRuns + 1;
      n := |data|;
      data := data + [d];
      pinned := pinned + multiset{n};
    }
  }
}

/** The one specification all interning tables are held against: a partial map from values
    to live nodes. */
module TableSpec {
  import opened Basics

  /** At most one live node per value. */
  ghost predicate OneLive<D>(nodes: set<nat>, data: seq<D>, dead: set<nat>) {
    && (forall n :: n in nodes ==> n < |data|)
    && (forall m, n :: m in nodes && n in nodes && m != n && data[m] == data[n] ==> m in dead || n in dead)
  }

  ghost predicate IsLive<D>(n: nat, nodes: set<nat>, data: seq<D>, dead: set<nat>, d: D) {
    n in nodes && n < |data| && data[n] == d && n !in dead
  }

  /** The map: the live node of a value, if there is one. */
  ghost function LiveNode<D>(nodes: set<nat>, data: seq<D>, dead: set<nat>, d: D): Option<nat> {
    if exists n :: IsLive(n, nodes, data, dead, d) then
      var n :| IsLive(n, nodes, data, dead, d);
      Some(n)
    else None
  }

  lemma LiveNodeIs<D>(nodes: set<nat>, data: seq<D>, dead: set<nat>, n: nat)
    requires OneLive(nodes, data, dead) && n in nodes && n !in dead
    ensures LiveNode(nodes, data, dead, data[n]) == Some(n)
  {
    assert IsLive(n, nodes, data, dead, data[n]);
  }

  lemma OneLiveLater<D>(nodes: set<nat>, data: seq<D>, dead: set<nat>, data': seq<D>, dead': set<nat>)
    requires OneLive(nodes, data, dead) && data <= data' && dead <= dead'
    ensures OneLive(nodes, data', dead')
  {
  }

  /** The specification of `get_or_insert`. From then on the node returned is the live node
      of `d`; no other value is affected, and entries go only if they are dead. The node is
      the one that was there, or it is fresh, nothing was there and `creation_meta` ran once. */
  ghost predicate Interned<D(!new)>(before: set<nat>, after: set<nat>, data: seq<D>, dead: set<nat>, d: D, r: nat,
                                    fresh_: nat, runs: int) {
    && OneLive(after, data, dead)
    && after <= before + {r} && (forall n :: n in before && n !in after ==> n in dead)
    && LiveNode(after, data, dead, d) == Some(r)
    && (forall e :: e != d ==> LiveNode(after, data, dead, e) == LiveNode(before, data, dead, e))
    && (if r < fresh_ then LiveNode(before, data, dead, d) == Some(r) && runs == 0
        else LiveNode(before, data, dead, d) == None && runs == 1)
  }

  /** The call may have started before the nodes were counted. */
  lemma InternedEarlier<D(!new)>(before: set<nat>, after: set<nat>, data: seq<D>, dead: set<nat>, d: D, r: nat,
                                 late: nat, early: nat, runs: int)
    requires Interned(before, after, data, dead, d, r, late, runs)
    requires early <= late && forall n :: n in before ==> n < early
    ensures Interned(before, after, data, dead, d, r, early, runs)
  {
  }

  /** Any table that finds a live node and forgets dead nodes only meets the specification. */
  lemma FoundInterned<D(!new)>(before: set<nat>, after: set<nat>, data: seq<D>, dead: set<nat>, d: D, r: nat,
                               fresh_: nat)
    requires OneLive(before, data, dead) && after <= before
    requires forall n :: n in before && n !in after ==> n in dead
    requires IsLive(r, after, data, dead, d) && r < fresh_
    ensures Interned(before, after, data, dead, d, r, fresh_, 0)
  {
    LiveNodeIs(after, data, dead, r);
    LiveNodeIs(before, data, dead, r);
    forall e ensures LiveNode(after, data, dead, e) == LiveNode(before, data, dead, e) {
      SameLive(before, after, data, dead, e);
    }
  }

  /** And so does one that adds a fresh node when every node of that value is dead. */
  lemma FreshInterned<D(!new)>(before: set<nat>, after: set<nat>, data: seq<D>, dead: set<nat>, d: D, r: nat,
                               fresh_: nat)
    requires OneLive(before, data, dead) && after <= before + {r} && r in after && r !in before
    requires forall n :: n in before && n !in after ==> n in dead
    requires forall n :: n in before && data[n] == d ==> n in dead
    requires fresh_ <= r < |data| && data[r] == d && r !in dead
    ensures Interned(before, after, data, dead, d, r, fresh_, 1)
  {
    LiveNodeIs(after, data, dead, r);
    forall e | e != d ensures LiveNode(after, data, dead, e) == LiveNode(before, data, dead, e) {
      SameLive(before, after, data, dead, e);
    }
  }

  lemma SameLive<D>(before: set<nat>, after: set<nat>, data: seq<D>, dead: set<nat>, e: D)
    requires OneLive(before, data, dead) && OneLive(after, data, dead)
    requires forall n :: IsLive(n, before, data, dead, e) <==> IsLive(n, after, data, dead, e)
    ensures LiveNode(after, data, dead, e) == LiveNode(before, data, dead, e)
  {
    if n :| IsLive(n, before, data, dead, e) {
      LiveNodeIs(before, data, dead, n);
      LiveNodeIs(after, data, dead, n);
    }
  }
}
