/** The two vector tables and the entry they are made of
    (hirpdag_hashconsing/src/table/{weak_entry,vec_linear_threadunsafe,vec_sorted_threadunsafe}.rs). */
module VecTables {
  import opened Basics
  import opened World
  import opened TableSpec

  datatype WeakEntry = WeakEntry(hash: nat, node: nat)

  function NodesOf(v: seq<WeakEntry>): set<nat> {
    set e | e in v :: e.node
  }

  /** Entries cache the hash of the node they refer to. */
  ghost predicate Cached<D>(v: seq<WeakEntry>, data: seq<D>, hashOf: D -> nat) {
    forall e :: e in v ==> e.node < |data| && e.hash == hashOf(data[e.node])
  }

  lemma CachedLater<D>(v: seq<WeakEntry>, data: seq<D>, hashOf: D -> nat, data': seq<D>)
    requires Cached(v, data, hashOf) && data <= data'
    ensures Cached(v, data', hashOf)
  {
  }

  /** `get_data`: the entry's node, held, if it is alive and has this data. */
  method GetData<D(==)>(w: World<D>, e: WeakEntry, data: D) returns (r: Option<nat>)
    requires w.Valid() && e.node < |w.data|
    modifies w
    ensures w.Later(old(w.data), old(w.dead)) && w.metaRuns == old(w.metaRuns)
    ensures r.Some? ==> r.value == e.node && w.data[e.node] == data && w.pinned == old(w.pinned) + multiset{e.node}
    ensures r.None? ==> w.pinned == old(w.pinned) && (w.data[e.node] == data ==> e.node in w.dead)
  {
    r := w.Upgrade(e.node);
    if r.Some? && w.data[r.value] != data {
      w.Release(e.node);
      r := None;
    }
  }

  class TableVecLinear<D(==,!new)> {
    var v: seq<WeakEntry>

    constructor ()
      ensures v == []
    {
      v := [];
    }

    ghost function Nodes(): set<nat> reads this {
      NodesOf(v)
    }

    ghost predicate Valid(w: World<D>, hashOf: D -> nat) reads this, w {
      w.Valid() && Cached(v, w.data, hashOf) && OneLive(Nodes(), w.data, w.dead)
    }

    method Get(w: World<D>, hash: nat, data: D, ghost hashOf: D -> nat) returns (r: Option<nat>)
      requires Valid(w, hashOf) && hash == hashOf(data)
      modifies w
      ensures Valid(w, hashOf) && w.Later(old(w.data), old(w.dead)) && w.metaRuns == old(w.metaRuns)
      ensures r == LiveNode(Nodes(), w.data, w.dead, data)
      ensures w.pinned == if r.Some? then old(w.pinned) + multiset{r.value} else old(w.pinned)
    {
      r := None;
      var i := 0;
      while i < |v|
        invariant 0 <= i <= |v|
        invariant w.Later(old(w.data), old(w.dead)) && w.metaRuns == old(w.metaRuns) && w.pinned == old(w.pinned)
        invariant r == None
        invariant forall j :: 0 <= j < i && w.data[v[j].node] == data ==> v[j].node in w.dead
      {
        if v[i].hash == hash {
          r := GetData(w, v[i], data);
          if r.Some? {
            LiveNodeIs(Nodes(), w.data, w.dead, r.value);
            return;
          }
        }
        i := i + 1;
      }
      AllDead(v, w.data, w.dead, data);
    }

    method GetOrInsert(w: World<D>, hash: nat, data: D, ghost hashOf: D -> nat) returns (r: nat)
      requires Valid(w, hashOf) && hash == hashOf(data)
      modifies this, w
      ensures Valid(w, hashOf) && w.Later(old(w.data), old(w.dead))
      ensures w.pinned == old(w.pinned) + multiset{r}
      ensures Interned(old(Nodes()), Nodes(), w.data, w.dead, data, r, old(|w.data|), w.metaRuns - old(w.metaRuns))
    {
      var existing := Get(w, hash, data, hashOf);
      if existing.Some? {
        r := existing.value;
        FoundInterned(Nodes(), Nodes(), w.data, w.dead, data, r, old(|w.data|));
        return;
      }
      NoneLive(Nodes(), w.data, w.dead, data);
      r := w.Create(data);
      v := v + [WeakEntry(hash, r)];
      Inserted(old(v), v, WeakEntry(hash, r), w.data, w.dead, hashOf, old(|w.data|));
    }
  }

  /** Adding an entry for a fresh node of a value none of whose nodes is alive. */
  lemma Inserted<D(!new)>(v: seq<WeakEntry>, v': seq<WeakEntry>, e: WeakEntry, data: seq<D>, dead: set<nat>,
                          hashOf: D -> nat, fresh_: nat)
    requires forall x :: x in v' <==> x == e || x in v
    requires fresh_ <= e.node < |data| && e.hash == hashOf(data[e.node]) && e.node !in dead
    requires Cached(v, data, hashOf) && OneLive(NodesOf(v), data, dead)
    requires forall n :: n in NodesOf(v) ==> n < fresh_ && (data[n] == data[e.node] ==> n in dead)
    ensures NodesOf(v') == NodesOf(v) + {e.node} && Cached(v', data, hashOf)
    ensures Interned(NodesOf(v), NodesOf(v'), data, dead, data[e.node], e.node, fresh_, 1)
  {
    assert e in v';
    FreshInterned(NodesOf(v), NodesOf(v'), data, dead, data[e.node], e.node, fresh_);
  }

  /** What an unsuccessful scan has found. */
  lemma AllDead<D>(v: seq<WeakEntry>, data: seq<D>, dead: set<nat>, d: D)
    requires forall e :: e in v ==> e.node < |data|
    requires forall j :: 0 <= j < |v| && data[v[j].node] == d ==> v[j].node in dead
    ensures LiveNode(NodesOf(v), data, dead, d) == None
  {
    assert forall e :: e in v && data[e.node] == d ==> e.node in dead;
  }

  lemma NoneLive<D>(nodes: set<nat>, data: seq<D>, dead: set<nat>, d: D)
    requires LiveNode(nodes, data, dead, d) == None && forall n :: n in nodes ==> n < |data|
    ensures forall n :: n in nodes && data[n] == d ==> n in dead
  {
    forall n | n in nodes && data[n] == d ensures n in dead {
      assert !IsLive(n, nodes, data, dead, d);
    }
  }

  // ---------------------------------------------------------------- sorted by hash

  ghost predicate Sorted(v: seq<WeakEntry>) {
    forall i, j :: 0 <= i < j < |v| ==> v[i].hash <= v[j].hash
  }

  /** What `binary_search_by` promises: any position of the hash, or the place it would go. */
  ghost predicate SearchResult(v: seq<WeakEntry>, hash: nat, found: bool, idx: nat) {
    if found then idx < |v| && v[idx].hash == hash
    else
      && idx <= |v|
      && (forall j :: 0 <= j < idx ==> v[j].hash < hash)
      && (forall j :: idx <= j < |v| ==> hash < v[j].hash)
  }

  method BinarySearch(v: seq<WeakEntry>, hash: nat) returns (found: bool, idx: nat)
    requires Sorted(v)
    ensures SearchResult(v, hash, found, idx)
  {
    var lo, hi := 0, |v|;
    while lo < hi
      invariant 0 <= lo <= hi <= |v|
      invariant forall j :: 0 <= j < lo ==> v[j].hash < hash
      invariant forall j :: hi <= j < |v| ==> hash < v[j].hash
    {
      var mid := (lo + hi) / 2;
      if v[mid].hash == hash {
        return true, mid;
      } else if v[mid].hash < hash {
        lo := mid + 1;
      } else {
        hi := mid;
      }
    }
    return false, lo;
  }

  class TableVecSorted<D(==,!new)> {
    var v: seq<WeakEntry>

    constructor ()
      ensures v == []
    {
      v := [];
    }

    ghost function Nodes(): set<nat> reads this {
      NodesOf(v)
    }

    ghost predicate Valid(w: World<D>, hashOf: D -> nat) reads this, w {
      w.Valid() && Cached(v, w.data, hashOf) && OneLive(Nodes(), w.data, w.dead) && Sorted(v)
    }

    /** Scans from `idx` while the hash is the same: upwards, or downwards from below it. */
    method LinearSearch(w: World<D>, idx: nat, up: bool, hash: nat, data: D) returns (r: Option<nat>)
      requires w.Valid() && Sorted(v) && idx < |v| && v[idx].hash == hash
      requires forall e :: e in v ==> e.node < |w.data|
      modifies w
      ensures w.Later(old(w.data), old(w.dead)) && w.metaRuns == old(w.metaRuns)
      ensures r.Some? ==>
        IsLive(r.value, Nodes(), w.data, w.dead, data) && w.pinned == old(w.pinned) + multiset{r.value}
      ensures r.None? ==> w.pinned == old(w.pinned)
      ensures r.None? ==> forall j ::
        (if up then idx <= j < |v| else 0 <= j < idx) && v[j].hash == hash && w.data[v[j].node] == data ==>
          v[j].node in w.dead
    {
      r := None;
      var n := 0;
      while n < (if up then |v| - idx else idx)
        invariant 0 <= n <= if up then |v| - idx else idx
        invariant w.Later(old(w.data), old(w.dead)) && w.metaRuns == old(w.metaRuns) && w.pinned == old(w.pinned)
        invariant r == None
        invariant forall j :: (if up then idx <= j < idx + n else idx - n <= j < idx) ==>
          v[j].hash == hash && (w.data[v[j].node] == data ==> v[j].node in w.dead)
      {
        var x := if up then idx + n else idx - 1 - n;
        if v[x].hash != hash {
          return;
        }
        r := GetData(w, v[x], data);
        if r.Some? {
          assert v[x] in v;
          return;
        }
        n := n + 1;
      }
    }

    method LinearSearchAround(w: World<D>, idx: nat, hash: nat, data: D, ghost hashOf: D -> nat)
      returns (r: Option<nat>)
      requires Valid(w, hashOf) && hash == hashOf(data)
      requires idx < |v| && v[idx].hash == hash
      modifies w
      ensures Valid(w, hashOf) && w.Later(old(w.data), old(w.dead)) && w.metaRuns == old(w.metaRuns)
      ensures r == LiveNode(Nodes(), w.data, w.dead, data)
      ensures w.pinned == if r.Some? then old(w.pinned) + multiset{r.value} else old(w.pinned)
    {
      r := LinearSearch(w, idx, true, hash, data);
      if r.None? {
        r := LinearSearch(w, idx, false, hash, data);
      }
      if r.Some? {
        LiveNodeIs(Nodes(), w.data, w.dead, r.value);
      } else {
        assert forall j :: 0 <= j < |v| ==> v[j] in v;
        AllDead(v, w.data, w.dead, data);
      }
    }

    method Get(w: World<D>, hash: nat, data: D, ghost hashOf: D -> nat) returns (r: Option<nat>)
      requires Valid(w, hashOf) && hash == hashOf(data)
      modifies w
      ensures Valid(w, hashOf) && w.Later(old(w.data), old(w.dead)) && w.metaRuns == old(w.metaRuns)
      ensures r == LiveNode(Nodes(), w.data, w.dead, data)
      ensures w.pinned == if r.Some? then old(w.pinned) + multiset{r.value} else old(w.pinned)
    {
      r := None;
      var found, idx := BinarySearch(v, hash);
      if found {
        r := LinearSearchAround(w, idx, hash, data, hashOf);
      } else {
        AbsentHash(v, w.data, w.dead, hashOf, data, idx);
      }
    }

    method GetOrInsert(w: World<D>, hash: nat, data: D, ghost hashOf: D -> nat) returns (r: nat)
      requires Valid(w, hashOf) && hash == hashOf(data)
      modifies this, w
      ensures Valid(w, hashOf) && w.Later(old(w.data), old(w.dead))
      ensures w.pinned == old(w.pinned) + multiset{r}
      ensures Interned(old(Nodes()), Nodes(), w.data, w.dead, data, r, old(|w.data|), w.metaRuns - old(w.metaRuns))
    {
      var found, idx := BinarySearch(v, hash);
      if found {
        var p := LinearSearchAround(w, idx, hash, data, hashOf);
        if p.Some? {
          r := p.value;
          FoundInterned(Nodes(), Nodes(), w.data, w.dead, data, r, old(|w.data|));
          return;
        }
      } else {
        AbsentHash(v, w.data, w.dead, hashOf, data, idx);
      }
      NoneLive(Nodes(), w.data, w.dead, data);
      r := w.Create(data);
      SortedInsert(v, idx, WeakEntry(hash, r), found);
      v := v[..idx] + [WeakEntry(hash, r)] + v[idx..];
      Inserted(old(v), v, WeakEntry(hash, r), w.data, w.dead, hashOf, old(|w.data|));
    }
  }

  lemma AbsentHash<D>(v: seq<WeakEntry>, data: seq<D>, dead: set<nat>, hashOf: D -> nat, d: D, idx: nat)
    requires Cached(v, data, hashOf) && SearchResult(v, hashOf(d), false, idx)
    ensures LiveNode(NodesOf(v), data, dead, d) == None
  {
    forall j | 0 <= j < |v| ensures data[v[j].node] != d {
      assert v[j] in v;
    }
    AllDead(v, data, dead, d);
  }

  /** Inserting where the search pointed keeps the vector sorted. */
  lemma SortedInsert(v: seq<WeakEntry>, idx: nat, e: WeakEntry, found: bool)
    requires Sorted(v) && SearchResult(v, e.hash, found, idx)
    ensures var v' := v[..idx] + [e] + v[idx..];
      Sorted(v') && (forall x :: x in v' <==> x == e || x in v)
  {
    assert v == v[..idx] + v[idx..];
  }
}
