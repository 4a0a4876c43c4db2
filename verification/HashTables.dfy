/** The hash map with a fallback, and the eight locked shards in front of it
    (hirpdag_hashconsing/src/table/{hashmap_fallback_threadunsafe,shared_sharded}.rs). */
module HashTables {
  import opened Basics
  import opened World
  import opened TableSpec
  import opened VecTables

  const PURGE_LEN_MIN: nat := 64

  /** The table used when a map slot is taken. */
  datatype Fallback<D(==,!new)> = Linear(l: TableVecLinear<D>) | Sorted(s: TableVecSorted<D>) {
    ghost function Obj(): object {
      if Linear? then l else s
    }

    ghost function Entries(): seq<WeakEntry> reads Obj() {
      match this case Linear(l) => l.v case Sorted(s) => s.v
    }

    ghost function Nodes(): set<nat> reads Obj() {
      NodesOf(Entries())
    }

    ghost predicate Valid(w: World<D>, hashOf: D -> nat) reads Obj(), w {
      w.Valid() && Fits(w.data, w.dead, hashOf)
    }

    ghost predicate Fits(data: seq<D>, dead: set<nat>, hashOf: D -> nat) reads Obj() {
      && Cached(Entries(), data, hashOf) && OneLive(Nodes(), data, dead)
      && (Sorted? ==> VecTables.Sorted(Entries()))
    }

    method Get(w: World<D>, hash: nat, data: D, ghost hashOf: D -> nat) returns (r: Option<nat>)
      requires Valid(w, hashOf) && hash == hashOf(data)
      modifies w
      ensures Valid(w, hashOf) && w.Later(old(w.data), old(w.dead)) && w.metaRuns == old(w.metaRuns)
      ensures Entries() == old(Entries())
      ensures r == LiveNode(Nodes(), w.data, w.dead, data)
      ensures w.pinned == if r.Some? then old(w.pinned) + multiset{r.value} else old(w.pinned)
    {
      match this
      case Linear(l) => r := l.Get(w, hash, data, hashOf);
      case Sorted(s) => r := s.Get(w, hash, data, hashOf);
    }

    method GetOrInsert(w: World<D>, hash: nat, data: D, ghost hashOf: D -> nat) returns (r: nat)
      requires Valid(w, hashOf) && hash == hashOf(data)
      modifies Obj(), w
      ensures Valid(w, hashOf) && w.Later(old(w.data), old(w.dead))
      ensures w.pinned == old(w.pinned) + multiset{r}
      ensures Interned(old(Nodes()), Nodes(), w.data, w.dead, data, r, old(|w.data|), w.metaRuns - old(w.metaRuns))
    {
      match this
      case Linear(l) => r := l.GetOrInsert(w, hash, data, hashOf);
      case Sorted(s) => r := s.GetOrInsert(w, hash, data, hashOf);
    }
  }

  /** Time alone does not invalidate a table: `data0` and `dead0` are from before. */
  lemma FallbackStays<D(!new)>(f: Fallback<D>, w: World<D>, hashOf: D -> nat, data0: seq<D>, dead0: set<nat>)
    requires f.Fits(data0, dead0, hashOf) && w.Later(data0, dead0)
    ensures f.Valid(w, hashOf)
  {
    CachedLater(f.Entries(), data0, hashOf, w.data);
    OneLiveLater(f.Nodes(), data0, dead0, w.data, w.dead);
  }

  /** What a table of this kind holds. */
  datatype TableView = TableView(m: map<nat, nat>, entries: seq<WeakEntry>, sorted: bool,
                                 purgeAtLen: nat, grown: nat, scanned: nat, mostKept: nat)

  function NodesIn(v: TableView): set<nat> {
    v.m.Values + NodesOf(v.entries)
  }

  /** The table fits nodes `data` of which `dead` are dead: at most one live node per value in
      the map and the fallback together, and the purge bounds. */
  ghost predicate Consistent<D>(v: TableView, data: seq<D>, dead: set<nat>, hashOf: D -> nat) {
    && Cached(v.entries, data, hashOf) && OneLive(NodesOf(v.entries), data, dead)
    && (v.sorted ==> VecTables.Sorted(v.entries))
    && MapOk(v.m, data, hashOf) && OneLive(NodesIn(v), data, dead)
    && Bounds(v.m, v.purgeAtLen, v.grown, v.scanned, v.mostKept)
  }

  /** The map never outgrows the purge limit, the limit is at most twice what a purge has
      ever kept, and purging costs a constant number of looks per insertion. */
  ghost predicate Bounds(m: map<nat, nat>, purgeAtLen: nat, grown: nat, scanned: nat, mostKept: nat) {
    && |m| <= purgeAtLen
    && PURGE_LEN_MIN <= purgeAtLen <= Max(PURGE_LEN_MIN, 2 * mostKept)
    && scanned <= 2 * grown
    && scanned + 2 * |m| <= 2 * grown + purgeAtLen
  }

  class TableHashmapFallback<D(==,!new)> {
    var m: map<nat, nat>
    const fallback: Fallback<D>
    var purgeAtLen: nat
    // History: insertions that made the map grow, entries looked at by all purges, and the
    // most live entries a purge has kept.
    ghost var grown: nat
    ghost var scanned: nat
    ghost var mostKept: nat

    constructor (fallback: Fallback<D>)
      ensures m == map[] && this.fallback == fallback && Amortized()
      ensures purgeAtLen == 64 && grown == scanned == mostKept == 0
    {
      m, purgeAtLen := map[], PURGE_LEN_MIN;
      this.fallback := fallback;
      grown, scanned, mostKept := 0, 0, 0;
    }

    ghost function View(): TableView reads this, fallback.Obj() {
      TableView(m, fallback.Entries(), fallback.Sorted?, purgeAtLen, grown, scanned, mostKept)
    }

    ghost function Nodes(): set<nat> reads this, fallback.Obj() {
      NodesIn(View())
    }

    ghost predicate Valid(w: World<D>, hashOf: D -> nat) reads this, fallback.Obj(), w {
      w.Valid() && Apart(w) && Consistent(View(), w.data, w.dead, hashOf)
    }

    ghost predicate Apart(w: World<D>) {
      w as object != fallback.Obj() && w as object != this && this as object != fallback.Obj()
    }

    ghost predicate Amortized() reads this {
      Bounds(m, purgeAtLen, grown, scanned, mostKept)
    }

    /** Looks at the map slot: the node found, or whether the slot is free or dead. */
    method ProbeSlot(w: World<D>, hash: nat, data: D, ghost hashOf: D -> nat) returns (r: Option<nat>, vacant: bool)
      requires Valid(w, hashOf) && hash == hashOf(data)
      modifies w
      ensures Valid(w, hashOf) && w.Later(old(w.data), old(w.dead)) && w.metaRuns == old(w.metaRuns)
      ensures Nodes() == old(Nodes())
      ensures w.pinned == if r.Some? then old(w.pinned) + multiset{r.value} else old(w.pinned)
      ensures r.Some? ==> IsLive(r.value, Nodes(), w.data, w.dead, data)
      ensures r.None? && vacant ==> hash in m ==> m[hash] in w.dead
      ensures r.None? && !vacant ==> hash in m && w.data[m[hash]] != data
    {
      if hash !in m {
        return None, true;
      }
      r, vacant := LookAt(w, m[hash], data);
      TableStays(this, w, hashOf, old(w.data), old(w.dead));
    }

    /** Upgrades, and keeps the handle if the data is the one asked for. */
    method LookAt(w: World<D>, n: nat, data: D) returns (r: Option<nat>, gone: bool)
      requires w.Valid() && n < |w.data| && Apart(w)
      modifies w
      ensures w.Later(old(w.data), old(w.dead)) && w.metaRuns == old(w.metaRuns)
      ensures w.pinned == if r.Some? then old(w.pinned) + multiset{n} else old(w.pinned)
      ensures r.Some? ==> r.value == n && n !in w.dead && w.data[n] == data
      ensures r.None? ==> if gone then n in w.dead else w.data[n] != data
      ensures fallback.Entries() == old(fallback.Entries())
    {
      r := w.Upgrade(n);
      gone := r.None?;
      if r.Some? && w.data[n] != data {
        w.Release(n);
        r := None;
      }
    }

    method Get(w: World<D>, hash: nat, data: D, ghost hashOf: D -> nat) returns (r: Option<nat>)
      requires Valid(w, hashOf) && hash == hashOf(data)
      modifies w
      ensures Valid(w, hashOf) && w.Later(old(w.data), old(w.dead)) && w.metaRuns == old(w.metaRuns)
      ensures r == LiveNode(Nodes(), w.data, w.dead, data)
      ensures w.pinned == if r.Some? then old(w.pinned) + multiset{r.value} else old(w.pinned)
    {
      var vacant;
      r, vacant := ProbeSlot(w, hash, data, hashOf);
      if r.Some? {
        LiveNodeIs(Nodes(), w.data, w.dead, r.value);
        return;
      }
      r := GetInFallback(w, hash, data, hashOf);
    }

    /** The map slot does not have the value; if it is in the table, it is in the fallback. */
    method GetInFallback(w: World<D>, hash: nat, data: D, ghost hashOf: D -> nat) returns (r: Option<nat>)
      requires Valid(w, hashOf) && hash == hashOf(data)
      requires hash in m && w.data[m[hash]] == data ==> m[hash] in w.dead
      modifies w
      ensures Valid(w, hashOf) && View() == old(View())
      ensures w.Later(old(w.data), old(w.dead)) && w.metaRuns == old(w.metaRuns)
      ensures r == LiveNode(Nodes(), w.data, w.dead, data)
      ensures w.pinned == if r.Some? then old(w.pinned) + multiset{r.value} else old(w.pinned)
    {
      ghost var view, data0, dead0 := View(), w.data, w.dead;
      r := fallback.Get(w, hash, data, hashOf);
      ViewStays(view, data0, dead0, w.data, w.dead, hashOf);
      MapThenFallback(m, fallback.Nodes(), w.data, w.dead, hashOf, data);
    }

    /** `retain`: drops the entries that are dead when looked at, in any order. */
    method Purge(w: World<D>, ghost hashOf: D -> nat)
      requires w.Valid() && MapOk(m, w.data, hashOf)
      modifies w, this`m
      ensures w.Later(old(w.data), old(w.dead)) && w.metaRuns == old(w.metaRuns) && w.pinned == old(w.pinned)
      ensures MapOk(m, w.data, hashOf)
      ensures m.Keys <= old(m).Keys && (forall h :: h in m ==> m[h] == old(m)[h])
      ensures forall h :: h in old(m) && h !in m ==> old(m)[h] in w.dead
      ensures forall h :: h in m ==> m[h] !in old(w.dead)
    {
      var todo := m.Keys;
      while todo != {}
        invariant todo <= m.Keys <= old(m).Keys && (forall h :: h in m ==> m[h] == old(m)[h])
        invariant forall h :: h in old(m) && h !in m ==> old(m)[h] in w.dead
        invariant forall h :: h in m && h !in todo ==> m[h] !in old(w.dead)
        invariant w.Later(old(w.data), old(w.dead)) && w.metaRuns == old(w.metaRuns) && w.pinned == old(w.pinned)
        invariant MapOk(m, w.data, hashOf)
        decreases todo
      {
        var h :| h in todo;
        Retain(w, h);
        todo := todo - {h};
      }
    }

    /** Looks at one entry, and drops it if its node is dead. */
    method Retain(w: World<D>, h: nat)
      requires w.Valid() && h in m && m[h] < |w.data|
      modifies w, this`m
      ensures w.Later(old(w.data), old(w.dead)) && w.metaRuns == old(w.metaRuns) && w.pinned == old(w.pinned)
      ensures m == old(m) || (m == old(m) - {h} && old(m)[h] in w.dead)
      ensures h in m ==> m[h] !in old(w.dead)
    {
      var up := w.Upgrade(m[h]);
      if up.Some? {
        w.Release(up.value);
      } else {
        m := m - {h};
      }
    }

    method GetOrInsert(w: World<D>, hash: nat, data: D, ghost hashOf: D -> nat) returns (r: nat)
      requires Valid(w, hashOf) && hash == hashOf(data)
      modifies this, fallback.Obj(), w
      ensures Valid(w, hashOf) && w.Later(old(w.data), old(w.dead))
      ensures w.pinned == old(w.pinned) + multiset{r}
      ensures Interned(old(Nodes()), Nodes(), w.data, w.dead, data, r, old(|w.data|), w.metaRuns - old(w.metaRuns))
      ensures grown <= old(grown) + 1
    {
      var up, vacant := ProbeSlot(w, hash, data, hashOf);
      if up.Some? {
        r := up.value;
        FoundInterned(Nodes(), Nodes(), w.data, w.dead, data, r, old(|w.data|));
      } else if vacant {
        r := InsertVacant(w, hash, data, hashOf, old(|w.data|));
      } else {
        r := InsertFallback(w, hash, data, hashOf, old(|w.data|));
      }
    }

    /** The slot holds another value of the same hash: leave everything to the fallback. */
    method InsertFallback(w: World<D>, hash: nat, data: D, ghost hashOf: D -> nat, ghost fresh_: nat) returns (r: nat)
      requires Valid(w, hashOf) && hash == hashOf(data)
      requires hash in m && w.data[m[hash]] != data
      requires fresh_ <= |w.data| && forall n :: n in Nodes() ==> n < fresh_
      modifies fallback.Obj(), w
      ensures Valid(w, hashOf) && w.Later(old(w.data), old(w.dead))
      ensures w.pinned == old(w.pinned) + multiset{r}
      ensures Interned(old(Nodes()), Nodes(), w.data, w.dead, data, r, fresh_, w.metaRuns - old(w.metaRuns))
    {
      ghost var view, data0, dead0 := View(), w.data, w.dead;
      assert Nodes() == NodesIn(view);
      r := fallback.GetOrInsert(w, hash, data, hashOf);
      FallbackPlaced(view, View(), data0, dead0, w.data, w.dead, hashOf, data, r, fresh_, w.metaRuns - old(w.metaRuns));
    }

    /** The slot for this hash is free or dead; the value may still be in the fallback. */
    method InsertVacant(w: World<D>, hash: nat, data: D, ghost hashOf: D -> nat, ghost fresh_: nat) returns (r: nat)
      requires Valid(w, hashOf) && hash == hashOf(data)
      requires hash in m ==> m[hash] in w.dead
      requires fresh_ <= |w.data| && forall n :: n in Nodes() ==> n < fresh_
      modifies this, w
      ensures Valid(w, hashOf) && w.Later(old(w.data), old(w.dead))
      ensures w.pinned == old(w.pinned) + multiset{r}
      ensures Interned(old(Nodes()), Nodes(), w.data, w.dead, data, r, fresh_, w.metaRuns - old(w.metaRuns))
      ensures grown <= old(grown) + 1
    {
      var inFallback := GetInFallback(w, hash, data, hashOf);
      if inFallback.Some? {
        r := inFallback.value;
        FoundInterned(Nodes(), Nodes(), w.data, w.dead, data, r, fresh_);
      } else {
        NoneLive(Nodes(), w.data, w.dead, data);
        r := InsertNew(w, hash, data, hashOf, fresh_);
      }
    }

    /** No node of this value is alive: create one and put it into the slot. */
    method InsertNew(w: World<D>, hash: nat, data: D, ghost hashOf: D -> nat, ghost fresh_: nat) returns (r: nat)
      requires Valid(w, hashOf) && hash == hashOf(data) && fresh_ <= |w.data|
      requires hash in m ==> m[hash] in w.dead
      requires forall n :: n in Nodes() ==> n < fresh_ && (w.data[n] == data ==> n in w.dead)
      modifies this, w
      ensures Valid(w, hashOf) && w.Later(old(w.data), old(w.dead))
      ensures w.pinned == old(w.pinned) + multiset{r}
      ensures Interned(old(Nodes()), Nodes(), w.data, w.dead, data, r, fresh_, w.metaRuns - old(w.metaRuns))
      ensures grown <= old(grown) + 1
    {
      ghost var view, data0, dead0 := View(), w.data, w.dead;
      r := CreateNode(w, data);
      ViewStays(view, data0, dead0, w.data, w.dead, hashOf);
      Place(w, hash, data, r, hashOf, fresh_);
    }

    method CreateNode(w: World<D>, data: D) returns (r: nat)
      requires w.Valid() && Apart(w)
      modifies w
      ensures w.Later(old(w.data), old(w.dead)) && w.metaRuns == old(w.metaRuns) + 1
      ensures |old(w.data)| <= r < |w.data| && w.data[r] == data && w.pinned == old(w.pinned) + multiset{r}
      ensures fallback.Entries() == old(fallback.Entries())
    {
      r := w.Create(data);
    }

    /** Makes room for one more entry, purging if it is time to: then every entry that was dead
        before is gone. */
    method PurgeIfDue(w: World<D>, ghost hashOf: D -> nat)
      requires w.Valid() && MapOk(m, w.data, hashOf) && Amortized() && Apart(w)
      modifies this, w
      ensures fallback.Entries() == old(fallback.Entries())
      ensures w.Later(old(w.data), old(w.dead)) && w.metaRuns == old(w.metaRuns) && w.pinned == old(w.pinned)
      ensures MapOk(m, w.data, hashOf) && Amortized() && |m| < purgeAtLen
      ensures m.Keys <= old(m).Keys && (forall h :: h in m ==> m[h] == old(m)[h])
      ensures forall h :: h in old(m) && h !in m ==> old(m)[h] in w.dead
      ensures if old(|m| >= purgeAtLen) then
          && (forall h :: h in m ==> m[h] !in old(w.dead))
          && purgeAtLen == Max(64, 2 * |m|) && mostKept == Max(old(mostKept), |m|)
          && scanned == old(scanned + |m|) && grown == old(grown)
        else
          && m == old(m) && purgeAtLen == old(purgeAtLen) && mostKept == old(mostKept)
          && scanned == old(scanned) && grown == old(grown)
    {
      if |m| >= purgeAtLen {
        scanned := scanned + |m|;
        Purge(w, hashOf);
        assert |m| <= old(|m|) by { SubsetSize(m.Keys, old(m).Keys); }
        purgeAtLen := Max(PURGE_LEN_MIN, |m| * 2);
        mostKept := Max(mostKept, |m|);
      }
    }

    /** Writes the slot; a slot that is taken must be dead. */
    method SetSlot(w: World<D>, hash: nat, r: nat)
      requires w.Valid() && Amortized() && |m| < purgeAtLen && Apart(w)
      requires hash in m ==> m[hash] < |w.data| && m[hash] in w.dead
      modifies this, w
      ensures w.Later(old(w.data), old(w.dead)) && w.metaRuns == old(w.metaRuns) && w.pinned == old(w.pinned)
      ensures m == old(m)[hash := r] && Amortized()
      ensures grown == old(grown) + if hash in old(m) then 0 else 1
      ensures purgeAtLen == old(purgeAtLen) && scanned == old(scanned) && mostKept == old(mostKept)
      ensures fallback.Entries() == old(fallback.Entries())
    {
      if hash in m {
        var occupied := w.Upgrade(m[hash]);
        assert occupied.None?;
      } else {
        grown := grown + 1;
      }
      m := m[hash := r];
    }

    /** Puts the fresh node into its slot, where every older node of the value is dead. */
    method Place(w: World<D>, hash: nat, data: D, r: nat, ghost hashOf: D -> nat, ghost fresh_: nat)
      requires Valid(w, hashOf) && hash == hashOf(data)
      requires forall n :: n in Nodes() ==> n < fresh_ && (w.data[n] == data ==> n in w.dead)
      requires hash in m ==> m[hash] in w.dead
      requires fresh_ <= r < |w.data| && w.data[r] == data && r in w.pinned
      modifies this, w
      ensures Valid(w, hashOf) && w.Later(old(w.data), old(w.dead))
      ensures w.pinned == old(w.pinned) && w.metaRuns == old(w.metaRuns)
      ensures Interned(old(Nodes()), Nodes(), w.data, w.dead, data, r, fresh_, 1)
      ensures grown <= old(grown) + 1
    {
      ghost var m0, data0, dead0 := m, w.data, w.dead;
      PurgeIfDue(w, hashOf);
      SetSlot(w, hash, r);
      PlacedTable(this, w, hashOf, m0, data0, dead0, data, r, fresh_);
    }
  }

  lemma PlacedTable<D(!new)>(t: TableHashmapFallback<D>, w: World<D>, hashOf: D -> nat,
                             m0: map<nat, nat>, data0: seq<D>, dead0: set<nat>, d: D, r: nat, fresh_: nat)
    requires t.fallback.Fits(data0, dead0, hashOf) && w.Later(data0, dead0) && t.Apart(w) && t.Amortized()
    requires MapOk(t.m, w.data, hashOf) && OneLive(m0.Values + t.fallback.Nodes(), data0, dead0)
    requires hashOf(d) in t.m && t.m[hashOf(d)] == r
    requires forall h :: h in t.m && h != hashOf(d) ==> h in m0 && t.m[h] == m0[h]
    requires forall h :: h in m0 && (h !in t.m || h == hashOf(d)) ==> m0[h] in w.dead
    requires forall n :: n in m0.Values + t.fallback.Nodes() ==>
      n < fresh_ && n < |w.data| && (w.data[n] == d ==> n in w.dead)
    requires fresh_ <= r < |w.data| && w.data[r] == d && r !in w.dead
    ensures t.Valid(w, hashOf)
    ensures Interned(m0.Values + t.fallback.Nodes(), t.Nodes(), w.data, w.dead, d, r, fresh_, 1)
  {
    OneLiveLater(m0.Values + t.fallback.Nodes(), data0, dead0, w.data, w.dead);
    PlacedInterned(m0, t.m, t.fallback.Nodes(), w.data, w.dead, hashOf, d, r, fresh_);
    FallbackStays(t.fallback, w, hashOf, data0, dead0);
  }

  /** If the map slot holds another value, interning in the fallback interns in the table. */
  lemma FallbackPlaced<D(!new)>(v: TableView, v': TableView, data0: seq<D>, dead0: set<nat>, data: seq<D>,
                                dead: set<nat>, hashOf: D -> nat, d: D, r: nat, fresh_: nat, runs: int)
    requires Consistent(v, data0, dead0, hashOf) && data0 <= data && dead0 <= dead && v' == v.(entries := v'.entries)
    requires Cached(v'.entries, data, hashOf) && OneLive(NodesOf(v'.entries), data, dead)
    requires v'.sorted ==> VecTables.Sorted(v'.entries)
    requires hashOf(d) in v.m && data0[v.m[hashOf(d)]] != d
    requires fresh_ <= |data0| && forall n :: n in NodesIn(v) ==> n < fresh_
    requires Interned(NodesOf(v.entries), NodesOf(v'.entries), data, dead, d, r, |data0|, runs)
    ensures Consistent(v', data, dead, hashOf) && Interned(NodesIn(v), NodesIn(v'), data, dead, d, r, fresh_, runs)
  {
    ViewStays(v, data0, dead0, data, dead, hashOf);
    forall n | n in NodesOf(v.entries) ensures n < fresh_ { assert n in NodesIn(v); }
    InternedEarlier(NodesOf(v.entries), NodesOf(v'.entries), data, dead, d, r, |data0|, fresh_, runs);
    FallbackInterned(v.m, NodesOf(v.entries), NodesOf(v'.entries), data, dead, hashOf, d, r, fresh_, runs);
  }

  ghost predicate MapOk<D>(m: map<nat, nat>, data: seq<D>, hashOf: D -> nat) {
    forall h :: h in m ==> m[h] < |data| && hashOf(data[m[h]]) == h
  }

  lemma TableStays<D(!new)>(t: TableHashmapFallback<D>, w: World<D>, hashOf: D -> nat, data0: seq<D>, dead0: set<nat>)
    requires Consistent(t.View(), data0, dead0, hashOf) && w.Later(data0, dead0) && t.Apart(w)
    ensures t.Valid(w, hashOf)
  {
    FallbackStays(t.fallback, w, hashOf, data0, dead0);
    OneLiveLater(t.Nodes(), data0, dead0, w.data, w.dead);
  }

  /** Looking at one map slot and then at the fallback finds whatever is alive. */
  lemma MapThenFallback<D(!new)>(m: map<nat, nat>, nodes: set<nat>, data: seq<D>, dead: set<nat>, hashOf: D -> nat,
                                 d: D)
    requires MapOk(m, data, hashOf) && OneLive(m.Values + nodes, data, dead)
    requires hashOf(d) in m && data[m[hashOf(d)]] == d ==> m[hashOf(d)] in dead
    ensures LiveNode(m.Values + nodes, data, dead, d) == LiveNode(nodes, data, dead, d)
  {
    assert OneLive(nodes, data, dead);
    SameLive(nodes, m.Values + nodes, data, dead, d);
  }

  lemma FallbackInterned<D(!new)>(m: map<nat, nat>, before: set<nat>, after: set<nat>, data: seq<D>, dead: set<nat>,
                                  hashOf: D -> nat, d: D, r: nat, fresh_: nat, runs: int)
    requires MapOk(m, data, hashOf) && hashOf(d) in m && data[m[hashOf(d)]] != d
    requires OneLive(m.Values + before, data, dead) && OneLive(before, data, dead)
    requires Interned(before, after, data, dead, d, r, fresh_, runs)
    ensures Interned(m.Values + before, m.Values + after, data, dead, d, r, fresh_, runs)
  {
    var u, v := m.Values + before, m.Values + after;
    forall x, y | x in v && y in v && x != y && data[x] == data[y] ensures x in dead || y in dead {
      AfterIsBefore(before, after, data, dead, d, r, fresh_, runs, x);
      AfterIsBefore(before, after, data, dead, d, r, fresh_, runs, y);
    }
    MapThenFallback(m, before, data, dead, hashOf, d);
    LiveNodeIs(v, data, dead, r);
    forall e | e != d ensures LiveNode(v, data, dead, e) == LiveNode(u, data, dead, e) {
      forall n ensures IsLive(n, u, data, dead, e) <==> IsLive(n, v, data, dead, e) {
        if IsLive(n, before, data, dead, e) { LiveNodeIs(before, data, dead, n); }
        if IsLive(n, after, data, dead, e) { LiveNodeIs(after, data, dead, n); }
      }
      SameLive(u, v, data, dead, e);
    }
  }

  /** A live node of the table afterwards is the one returned or was in the table before. */
  lemma AfterIsBefore<D(!new)>(before: set<nat>, after: set<nat>, data: seq<D>, dead: set<nat>, d: D, r: nat,
                               fresh_: nat, runs: int, n: nat)
    requires Interned(before, after, data, dead, d, r, fresh_, runs)
    ensures n in after && n !in dead ==> n == r || n in before
    ensures r in after && r < |data| && data[r] == d
  {
    if n in after && n !in dead {
      LiveNodeIs(after, data, dead, n);
    }
  }

  /** Putting a fresh node into its map slot, after entries that are dead may have gone. */
  lemma PlacedInterned<D(!new)>(m: map<nat, nat>, m': map<nat, nat>, nodes: set<nat>, data: seq<D>, dead: set<nat>,
                                hashOf: D -> nat, d: D, r: nat, fresh_: nat)
    requires OneLive(m.Values + nodes, data, dead)
    requires hashOf(d) in m' && m'[hashOf(d)] == r
    requires forall h :: h in m' && h != hashOf(d) ==> h in m && m'[h] == m[h]
    requires forall h :: h in m && (h !in m' || h == hashOf(d)) ==> m[h] in dead
    requires forall n :: n in m.Values + nodes ==> n < fresh_ && (data[n] == d ==> n in dead)
    requires fresh_ <= r < |data| && data[r] == d && r !in dead
    ensures Interned(m.Values + nodes, m'.Values + nodes, data, dead, d, r, fresh_, 1)
  {
    var before, after := m.Values + nodes, m'.Values + nodes;
    forall n | n in before && n !in after ensures n in dead {
      var h :| h in m && m[h] == n;
    }
    FreshInterned(before, after, data, dead, d, r, fresh_);
  }

  // ---------------------------------------------------------------- shards

  const N_SHARDS: nat := 8

  /** The shard of a hash: its low bits. */
  function ShardOf(hash: nat): (k: nat)
    ensures k < 8 && (hash - k) % 8 == 0
  {
    hash % N_SHARDS
  }

  function Union(parts: seq<set<nat>>): set<nat> {
    set i, n | 0 <= i < |parts| && n in parts[i] :: n
  }

  /** Nodes sit in the shard of their hash, so equal values meet in one shard. */
  ghost predicate Placed<D>(parts: seq<set<nat>>, data: seq<D>, hashOf: D -> nat) {
    forall i, n {:trigger n in parts[i]} :: 0 <= i < |parts| && n in parts[i] ==>
      n < |data| && ShardOf(hashOf(data[n])) == i
  }

  lemma UnionLive<D(!new)>(parts: seq<set<nat>>, data: seq<D>, dead: set<nat>, hashOf: D -> nat)
    requires Placed(parts, data, hashOf)
    requires forall i :: 0 <= i < |parts| ==> OneLive(parts[i], data, dead)
    ensures OneLive(Union(parts), data, dead)
  {
  }

  /** Looking into the shard of a value's hash is looking into the whole table. */
  lemma ShardLive<D(!new)>(parts: seq<set<nat>>, data: seq<D>, dead: set<nat>, hashOf: D -> nat, d: D)
    requires Placed(parts, data, hashOf) && ShardOf(hashOf(d)) < |parts|
    requires forall i :: 0 <= i < |parts| ==> OneLive(parts[i], data, dead)
    ensures LiveNode(Union(parts), data, dead, d) == LiveNode(parts[ShardOf(hashOf(d))], data, dead, d)
  {
    UnionLive(parts, data, dead, hashOf);
    SameLive(Union(parts), parts[ShardOf(hashOf(d))], data, dead, d);
  }

  /** Interning in one shard is interning in the whole table. */
  lemma ShardInterned<D(!new)>(parts: seq<set<nat>>, after: set<nat>, data: seq<D>, dead: set<nat>, hashOf: D -> nat,
                               d: D, r: nat, fresh_: nat, runs: int)
    requires Placed(parts, data, hashOf) && ShardOf(hashOf(d)) < |parts|
    requires forall i :: 0 <= i < |parts| ==> OneLive(parts[i], data, dead)
    requires Interned(parts[ShardOf(hashOf(d))], after, data, dead, d, r, fresh_, runs)
    requires Placed(parts[ShardOf(hashOf(d)) := after], data, hashOf)
    ensures Interned(Union(parts), Union(parts[ShardOf(hashOf(d)) := after]), data, dead, d, r, fresh_, runs)
  {
    var k := ShardOf(hashOf(d));
    var parts' := parts[k := after];
    UnionLive(parts', data, dead, hashOf);
    ShardLive(parts, data, dead, hashOf, d);
    ShardLive(parts', data, dead, hashOf, d);
    forall n | n in Union(parts) && n !in Union(parts') ensures n in dead {
      var i :| 0 <= i < |parts| && n in parts[i];
      assert i == k && n !in after by { assert n !in parts'[i]; }
    }
    assert Union(parts') <= Union(parts) + {r};
    forall e | e != d ensures LiveNode(Union(parts'), data, dead, e) == LiveNode(Union(parts), data, dead, e) {
      if ShardOf(hashOf(e)) < |parts| {
        ShardLive(parts, data, dead, hashOf, e);
        ShardLive(parts', data, dead, hashOf, e);
      } else {
        UnionLive(parts, data, dead, hashOf);
        SameLive(Union(parts), Union(parts'), data, dead, e);
      }
    }
  }

  class TableSharedSharded<D(==,!new)> {
    const shards: seq<TableHashmapFallback<D>>
    const hashOf: D -> nat

    constructor (shards: seq<TableHashmapFallback<D>>, hashOf: D -> nat)
      ensures this.shards == shards && this.hashOf == hashOf
    {
      this.shards, this.hashOf := shards, hashOf;
    }

    ghost function AllObjects(): set<object> {
      (set i | 0 <= i < |shards| :: shards[i] as object) + (set i | 0 <= i < |shards| :: shards[i].fallback.Obj())
    }

    ghost function Views(): seq<TableView> reads AllObjects() {
      seq(|shards|, i requires 0 <= i < |shards| reads AllObjects() => shards[i].View())
    }

    /** No two shards have an object in common. */
    ghost predicate Separate(w: World<D>) {
      && (forall i :: 0 <= i < |shards| ==> shards[i].Apart(w))
      && (forall i, j :: 0 <= i < |shards| && 0 <= j < |shards| && i != j ==>
            && shards[i] != shards[j]
            && shards[i].fallback.Obj() != shards[j].fallback.Obj()
            && shards[i] as object != shards[j].fallback.Obj())
    }

    ghost predicate Valid(w: World<D>) reads AllObjects(), w {
      |shards| == N_SHARDS && Separate(w) && w.Valid() && ShardsOk(Views(), w.data, w.dead, hashOf)
    }

    ghost function Nodes(): set<nat> reads AllObjects() {
      Union(Parts(Views()))
    }

    method Get(w: World<D>, data: D) returns (r: Option<nat>)
      requires Valid(w)
      modifies w
      ensures Valid(w) && w.Later(old(w.data), old(w.dead)) && w.metaRuns == old(w.metaRuns)
      ensures r == LiveNode(Nodes(), w.data, w.dead, data)
      ensures w.pinned == if r.Some? then old(w.pinned) + multiset{r.value} else old(w.pinned)
    {
      ghost var views, data0, dead0 := Views(), w.data, w.dead;
      var k := ShardOf(hashOf(data));
      assert Consistent(views[k], data0, dead0, hashOf) && views[k] == shards[k].View();
      r := shards[k].Get(w, hashOf(data), data, hashOf);
      forall i | 0 <= i < |shards| ensures shards[i].View() == views[i] {
        assert shards[i].Apart(w);
      }
      assert Views() == views;
      ShardsStay(views, data0, dead0, w.data, w.dead, hashOf);
      LookedUp(views, w.data, w.dead, hashOf, data);
    }

    /** The work under the lock of shard `k`; the other shards are not touched. */
    method InShard(w: World<D>, k: nat, data: D) returns (r: nat)
      requires |shards| == N_SHARDS && Separate(w) && k == ShardOf(hashOf(data))
      requires shards[k].Valid(w, hashOf)
      modifies shards[k], shards[k].fallback.Obj(), w
      ensures shards[k].Valid(w, hashOf) && w.Later(old(w.data), old(w.dead))
      ensures w.pinned == old(w.pinned) + multiset{r}
      ensures Interned(old(shards[k].Nodes()), shards[k].Nodes(), w.data, w.dead, data, r, old(|w.data|),
                       w.metaRuns - old(w.metaRuns))
      ensures Views() == old(Views())[k := shards[k].View()]
    {
      ghost var views := Views();
      r := shards[k].GetOrInsert(w, hashOf(data), data, hashOf);
      forall i | 0 <= i < |shards| && i != k ensures shards[i].View() == views[i] {
        assert shards[i] != shards[k] && shards[i] as object != shards[k].fallback.Obj();
        assert shards[i].fallback.Obj() != shards[k].fallback.Obj() && shards[i].fallback.Obj() != shards[k];
      }
      assert Views() == views[k := shards[k].View()];
    }

    method GetOrInsert(w: World<D>, data: D) returns (r: nat)
      requires Valid(w)
      modifies AllObjects(), w
      ensures Valid(w) && w.Later(old(w.data), old(w.dead))
      ensures w.pinned == old(w.pinned) + multiset{r}
      ensures Interned(old(Nodes()), Nodes(), w.data, w.dead, data, r, old(|w.data|), w.metaRuns - old(w.metaRuns))
    {
      var k := ShardOf(hashOf(data));
      ghost var views, data0, dead0 := Views(), w.data, w.dead;
      assert Consistent(views[k], data0, dead0, hashOf) && views[k] == shards[k].View();
      r := InShard(w, k, data);
      WholeInterned(views, shards[k].View(), data0, dead0, w.data, w.dead, hashOf, data, r, |data0|,
                    w.metaRuns - old(w.metaRuns));
    }
  }

  function Parts(views: seq<TableView>): seq<set<nat>> {
    seq(|views|, i requires 0 <= i < |views| => NodesIn(views[i]))
  }

  ghost predicate ShardsOk<D>(views: seq<TableView>, data: seq<D>, dead: set<nat>, hashOf: D -> nat) {
    && (forall i :: 0 <= i < |views| ==> Consistent(views[i], data, dead, hashOf))
    && Placed(Parts(views), data, hashOf)
  }

  lemma ViewStays<D(!new)>(v: TableView, data0: seq<D>, dead0: set<nat>, data: seq<D>, dead: set<nat>, hashOf: D -> nat)
    requires Consistent(v, data0, dead0, hashOf) && data0 <= data && dead0 <= dead
    ensures Consistent(v, data, dead, hashOf)
  {
    CachedLater(v.entries, data0, hashOf, data);
    OneLiveLater(NodesOf(v.entries), data0, dead0, data, dead);
    OneLiveLater(NodesIn(v), data0, dead0, data, dead);
  }

  /** Time alone does not disturb the shards. */
  lemma ShardsStay<D(!new)>(views: seq<TableView>, data0: seq<D>, dead0: set<nat>, data: seq<D>, dead: set<nat>,
                            hashOf: D -> nat)
    requires ShardsOk(views, data0, dead0, hashOf) && data0 <= data && dead0 <= dead
    ensures ShardsOk(views, data, dead, hashOf)
  {
    forall i | 0 <= i < |views| ensures Consistent(views[i], data, dead, hashOf) {
      ViewStays(views[i], data0, dead0, data, dead, hashOf);
    }
    PlacedLater(Parts(views), data0, data, hashOf);
  }

  lemma PlacedLater<D>(parts: seq<set<nat>>, data0: seq<D>, data: seq<D>, hashOf: D -> nat)
    requires Placed(parts, data0, hashOf) && data0 <= data
    ensures Placed(parts, data, hashOf)
  {
    forall i, n | 0 <= i < |parts| && n in parts[i] ensures n < |data| && ShardOf(hashOf(data[n])) == i {
      assert n < |data0| && data[n] == data0[n];
    }
  }

  lemma LookedUp<D(!new)>(views: seq<TableView>, data: seq<D>, dead: set<nat>, hashOf: D -> nat, d: D)
    requires ShardsOk(views, data, dead, hashOf) && |views| == N_SHARDS
    ensures LiveNode(Union(Parts(views)), data, dead, d) == LiveNode(NodesIn(views[ShardOf(hashOf(d))]), data, dead, d)
  {
    forall i | 0 <= i < |views| ensures OneLive(Parts(views)[i], data, dead) {
      assert Consistent(views[i], data, dead, hashOf);
    }
    ShardLive(Parts(views), data, dead, hashOf, d);
  }

  lemma WholeInterned<D(!new)>(views: seq<TableView>, view: TableView, data0: seq<D>, dead0: set<nat>, data: seq<D>,
                               dead: set<nat>,
                               hashOf: D -> nat, d: D, r: nat, fresh_: nat, runs: int)
    requires ShardsOk(views, data0, dead0, hashOf) && data0 <= data && dead0 <= dead && |views| == N_SHARDS
    requires Consistent(view, data, dead, hashOf)
    requires Interned(NodesIn(views[ShardOf(hashOf(d))]), NodesIn(view), data, dead, d, r, fresh_, runs)
    ensures var views' := views[ShardOf(hashOf(d)) := view];
      && ShardsOk(views', data, dead, hashOf)
      && Interned(Union(Parts(views)), Union(Parts(views')), data, dead, d, r, fresh_, runs)
  {
    var k := ShardOf(hashOf(d));
    var views', parts := views[k := view], Parts(views);
    ShardsStay(views, data0, dead0, data, dead, hashOf);
    forall i | 0 <= i < |views| ensures OneLive(parts[i], data, dead) {
      assert Consistent(views[i], data, dead, hashOf);
    }
    assert Parts(views') == parts[k := NodesIn(view)];
    PartsPlaced(parts, NodesIn(view), data, dead, hashOf, d, r, fresh_, runs);
    ShardInterned(parts, NodesIn(view), data, dead, hashOf, d, r, fresh_, runs);
  }

  lemma PartsPlaced<D(!new)>(parts: seq<set<nat>>, after: set<nat>, data: seq<D>, dead: set<nat>,
                             hashOf: D -> nat, d: D, r: nat, fresh_: nat, runs: int)
    requires Placed(parts, data, hashOf) && ShardOf(hashOf(d)) < |parts|
    requires Interned(parts[ShardOf(hashOf(d))], after, data, dead, d, r, fresh_, runs)
    ensures Placed(parts[ShardOf(hashOf(d)) := after], data, hashOf)
  {
    var k := ShardOf(hashOf(d));
    AfterIsBefore(parts[k], after, data, dead, d, r, fresh_, runs, r);
    forall n | n in after ensures n < |data| && ShardOf(hashOf(data[n])) == k {
      assert n in parts[k] + {r};
    }
  }
}
