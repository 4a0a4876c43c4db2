/** The thread-local buffer of deferred decrements behind `RefTlc`
    (hirpdag_hashconsing/src/reference/tlc.rs). */
module Deferred {
  import opened Basics

  const FLUSH_OPS: nat := 4096
  const FLUSH_ENTRIES: nat := 1024

  type Addr = nat

  /** `release` stands for the stored function pointer `release_strong::<D>`:
      it is the number of the type D it was instantiated at. */
  datatype Entry = Entry(count: nat, release: nat)

  datatype Pending = Pending(addr: Addr, entry: Entry)

  /** The value of a `DeferredDecs`. */
  datatype Buffer = Buffer(entries: map<Addr, Entry>, ops: nat)

  const EMPTY: Buffer := Buffer(map[], 0)

  /** One more deferred decrement, before the flush thresholds are looked at. An
      entry that is already there keeps the release function it was created with. */
  function Counted(b: Buffer, addr: Addr, release: nat): Buffer {
    var e := if addr in b.entries then b.entries[addr] else Entry(0, release);
    Buffer(b.entries[addr := e.(count := e.count + 1)], b.ops + 1)
  }

  predicate MustFlush(b: Buffer) {
    b.ops >= FLUSH_OPS || |b.entries| >= FLUSH_ENTRIES
  }

  function Consumed(b: Buffer, addr: Addr): Buffer
    requires addr in b.entries
  {
    var e := b.entries[addr];
    if e.count <= 1 then b.(entries := b.entries - {addr})
    else b.(entries := b.entries[addr := e.(count := e.count - 1)])
  }

  /** A hash map drains in some order we know nothing about. */
  predicate IsOrder(order: seq<Addr>, m: map<Addr, Entry>) {
    && (forall i, j :: 0 <= i < j < |order| ==> order[i] != order[j])
    && (forall a | a in order :: a in m)
    && (forall a | a in m :: a in order)
  }

  function Drained(m: map<Addr, Entry>, order: seq<Addr>): seq<Pending>
    requires forall a :: a in order ==> a in m
  {
    if order == [] then []
    else [Pending(order[0], m[order[0]])] + Drained(m, order[1..])
  }

  /** Decrements buffered for one address. */
  function Amount(m: map<Addr, Entry>, a: Addr): nat {
    if a in m then m[a].count else 0
  }

  /** Decrements for one address in a drained list. */
  function Owing(todo: seq<Pending>, a: Addr): nat {
    if todo == [] then 0
    else (if todo[0].addr == a then todo[0].entry.count else 0) + Owing(todo[1..], a)
  }

  /** All decrements in the buffer. */
  ghost function Sum(m: map<Addr, Entry>): nat
    decreases |m|
  {
    if m == map[] then 0
    else
      var a :| a in m;
      m[a].count + Sum(m - {a})
  }

  lemma {:induction false} SumSplit(m: map<Addr, Entry>, a: Addr)
    requires a in m
    ensures Sum(m) == m[a].count + Sum(m - {a})
    decreases |m|
  {
    var b :| b in m && Sum(m) == m[b].count + Sum(m - {b});
    if a != b {
      SumSplit(m - {b}, a);
      SumSplit(m - {a}, b);
      assert m - {b} - {a} == m - {a} - {b};
    }
  }

  lemma {:induction false} DrainedOwing(m: map<Addr, Entry>, order: seq<Addr>, a: Addr)
    requires forall x :: x in order ==> x in m
    requires forall i, j :: 0 <= i < j < |order| ==> order[i] != order[j]
    ensures Owing(Drained(m, order), a) == if a in order then m[a].count else 0
  {
    if order != [] {
      assert forall x :: x in order[1..] ==> x in order;
      DrainedOwing(m, order[1..], a);
      assert a in order <==> a == order[0] || a in order[1..];
    }
  }

  /** Draining moves every buffered decrement into the list, none lost or doubled. */
  lemma DrainKeepsAmounts(m: map<Addr, Entry>, order: seq<Addr>)
    requires IsOrder(order, m)
    ensures forall a :: Owing(Drained(m, order), a) == Amount(m, a)
  {
    forall a ensures Owing(Drained(m, order), a) == Amount(m, a) {
      DrainedOwing(m, order, a);
    }
  }

  lemma {:induction false} DrainedEntries(m: map<Addr, Entry>, order: seq<Addr>)
    requires forall x :: x in order ==> x in m
    ensures |Drained(m, order)| == |order|
    ensures forall p :: p in Drained(m, order) ==> p.addr in m && p.entry == m[p.addr]
  {
    if order != [] {
      assert forall x :: x in order[1..] ==> x in order;
      DrainedEntries(m, order[1..]);
    }
  }

  /** What holds of a thread's buffer whenever no buffer operation is under way:
      the retention bound. */
  ghost predicate Bounded(b: Buffer) {
    && (forall a :: a in b.entries ==> b.entries[a].count > 0)
    && Sum(b.entries) <= b.ops < FLUSH_OPS
    && |b.entries| < FLUSH_ENTRIES
  }

  /** A buffered drop that does not reach a threshold leaves the buffer bounded, and one
      that does leaves it empty. */
  lemma CountedBounded(b: Buffer, addr: Addr, release: nat)
    requires Bounded(b)
    ensures forall a :: a in Counted(b, addr, release).entries ==> Counted(b, addr, release).entries[a].count > 0
    ensures !MustFlush(Counted(b, addr, release)) ==> Bounded(Counted(b, addr, release))
    ensures Bounded(EMPTY)
  {
    CountedSum(b, addr, release);
  }

  lemma CountedSum(b: Buffer, addr: Addr, release: nat)
    ensures Sum(Counted(b, addr, release).entries) == Sum(b.entries) + 1
  {
    var c := Counted(b, addr, release).entries;
    SumSplit(c, addr);
    assert c - {addr} == b.entries - {addr};
    if addr in b.entries {
      SumSplit(b.entries, addr);
    } else {
      assert b.entries - {addr} == b.entries;
    }
  }

  lemma ConsumedBounded(b: Buffer, addr: Addr)
    requires Bounded(b) && addr in b.entries
    ensures Bounded(Consumed(b, addr))
  {
    var c := Consumed(b, addr);
    SumSplit(b.entries, addr);
    if addr in c.entries {
      SumSplit(c.entries, addr);
      assert c.entries - {addr} == b.entries - {addr};
      assert c.entries.Keys == b.entries.Keys;
      assert |c.entries| == |c.entries.Keys| == |b.entries|;
    } else {
      assert c.entries.Keys <= b.entries.Keys;
      assert |c.entries.Keys| <= |b.entries.Keys| by { SubsetSize(c.entries.Keys, b.entries.Keys); }
    }
  }

  /** What one more deferred decrement does, and when it is one too many: at 4096 operations
      or 1024 objects. The release function is the one that came with the object's first. */
  lemma CountedExactly(b: Buffer, addr: Addr, release: nat)
    ensures var c := Counted(b, addr, release);
      && (forall a :: Amount(c.entries, a) == Amount(b.entries, a) + if a == addr then 1 else 0)
      && (forall a :: a in c.entries <==> a == addr || a in b.entries)
      && (forall a :: a in b.entries ==> c.entries[a].release == b.entries[a].release)
      && (addr !in b.entries ==> c.entries[addr].release == release)
      && c.ops == b.ops + 1
      && (MustFlush(c) <==> b.ops + 1 >= 4096 || |b.entries.Keys + {addr}| >= 1024)
  {
    var c := Counted(b, addr, release);
    assert c.entries.Keys == b.entries.Keys + {addr};
    assert |c.entries| == |c.entries.Keys|;
  }

  /** And what cancelling one does. Operations since the flush are not given back. */
  lemma ConsumedExactly(b: Buffer, addr: Addr)
    requires Bounded(b) && addr in b.entries
    ensures var c := Consumed(b, addr);
      && (forall a :: Amount(c.entries, a) == Amount(b.entries, a) - if a == addr then 1 else 0)
      && (forall a :: a in c.entries <==> a in b.entries && (a == addr ==> b.entries[a].count > 1))
      && (forall a :: a in c.entries ==> c.entries[a].release == b.entries[a].release)
      && c.ops == b.ops
  {
  }

  /** The struct itself, updated in place. */
  class DeferredDecs {
    var entries: map<Addr, Entry>
    var opsSinceFlush: nat

    ghost function View(): Buffer reads this {
      Buffer(entries, opsSinceFlush)
    }

    constructor ()
      ensures View() == EMPTY
    {
      entries, opsSinceFlush := map[], 0;
    }

    /** Drains the map in an arbitrary order. */
    method TakePending() returns (pending: seq<Pending>, ghost order: seq<Addr>)
      modifies this
      ensures View() == EMPTY
      ensures IsOrder(order, old(entries)) && pending == Drained(old(entries), order)
    {
      opsSinceFlush := 0;
      pending, order := [], [];
      while entries != map[]
        invariant opsSinceFlush == 0
        invariant entries.Keys <= old(entries).Keys
        invariant forall a :: a in entries ==> entries[a] == old(entries)[a]
        invariant forall a :: a in old(entries) <==> a in entries || a in order
        invariant forall a :: a in order ==> a !in entries
        invariant forall i, j :: 0 <= i < j < |order| ==> order[i] != order[j]
        invariant pending == Drained(old(entries), order)
        decreases |entries|
      {
        var a :| a in entries;
        DrainedSnoc(old(entries), order, a);
        pending, order := pending + [Pending(a, entries[a])], order + [a];
        entries := entries - {a};
      }
    }

    /** Buffers one decrement; hands back the drained decrements once a threshold is reached. */
    method Defer(addr: Addr, release: nat) returns (pending: Option<seq<Pending>>, ghost order: seq<Addr>)
      requires Bounded(View())
      modifies this
      ensures Bounded(View())
      ensures pending == None <==> old(opsSinceFlush) + 1 < 4096 && |old(entries).Keys + {addr}| < 1024
      ensures var counted := Counted(old(View()), addr, release);
        if MustFlush(counted) then
          View() == EMPTY && IsOrder(order, counted.entries) && pending == Some(Drained(counted.entries, order))
        else
          View() == counted && pending == None
    {
      ghost var counted := Counted(View(), addr, release);
      CountedBounded(View(), addr, release);
      CountedExactly(View(), addr, release);
      var entry := if addr in entries then entries[addr] else Entry(0, release);
      entries := entries[addr := entry.(count := entry.count + 1)];
      opsSinceFlush := opsSinceFlush + 1;
      assert View() == counted;
      pending, order := None, [];
      if opsSinceFlush >= FLUSH_OPS || |entries| >= FLUSH_ENTRIES {
        var drained;
        drained, order := TakePending();
        pending := Some(drained);
      }
    }

    /** Cancels one buffered decrement against an increment, if there is one. */
    method Consume(addr: Addr) returns (consumed: bool)
      requires Bounded(View())
      modifies this
      ensures Bounded(View())
      ensures consumed == (addr in old(entries))
      ensures View() == if consumed then Consumed(old(View()), addr) else old(View())
    {
      consumed := addr in entries;
      if consumed {
        ConsumedBounded(View(), addr);
        var entry := entries[addr];
        entry := entry.(count := entry.count - 1);
        entries := entries[addr := entry];
        if entry.count == 0 {
          entries := entries - {addr};
          assert entries == old(entries) - {addr};
        }
      }
    }
  }

  lemma {:induction false} DrainedSnoc(m: map<Addr, Entry>, order: seq<Addr>, a: Addr)
    requires a in m && forall x :: x in order ==> x in m
    ensures Drained(m, order + [a]) == Drained(m, order) + [Pending(a, m[a])]
  {
    if order == [] {
      assert ([] + [a])[1..] == [];
    } else {
      assert (order + [a])[1..] == order[1..] + [a];
      assert forall x :: x in order[1..] ==> x in order;
      DrainedSnoc(m, order[1..], a);
    }
  }
}
