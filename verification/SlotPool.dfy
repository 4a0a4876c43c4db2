/** The pool of recycled count slots behind `RefSepGeneric`
    (hirpdag_hashconsing/src/reference/sepcount.rs). */
module SlotPool {

  const CHUNK_SLOTS: nat := 4096

  type Slot = nat

  /** Chunk `c` holds the slots `CHUNK_SLOTS * c` up to `CHUNK_SLOTS * (c + 1)`. */
  datatype Pool = Pool(chunks: nat, free: seq<Slot>)

  function Chunk(c: nat): seq<Slot> {
    seq(CHUNK_SLOTS, i requires 0 <= i < CHUNK_SLOTS => CHUNK_SLOTS * c + i)
  }

  function Refilled(p: Pool): Pool {
    if p.free == [] then Pool(p.chunks + 1, Chunk(p.chunks)) else p
  }

  /** Slots are handed out from the end of the free list. */
  function Allocated(p: Pool): (Slot, Pool) {
    var r := Refilled(p);
    (r.free[|r.free| - 1], r.(free := r.free[..|r.free| - 1]))
  }

  function Released(p: Pool, slot: Slot): Pool {
    p.(free := p.free + [slot])
  }

  /** Of the slots below `n`, those in `used` are out and all others are free, each once. */
  ghost predicate Partition(free: seq<Slot>, used: set<Slot>, n: nat) {
    && (forall i, j :: 0 <= i < j < |free| ==> free[i] != free[j])
    && (forall x :: x in free ==> x < n && x !in used)
    && (forall x: Slot :: x < n ==> x in free || x in used)
    && (forall x :: x in used ==> x < n)
    && |free| + |used| == n
  }

  ghost predicate Covers(p: Pool, used: set<Slot>) {
    Partition(p.free, used, CHUNK_SLOTS * p.chunks)
  }

  lemma PartitionGrows(used: set<Slot>, n: nat, chunk: seq<Slot>)
    requires Partition([], used, n) && forall i :: 0 <= i < |chunk| ==> chunk[i] == n + i
    ensures Partition(chunk, used, n + |chunk|) && |used| == n
  {
    forall x: Slot | x < n + |chunk| ensures x in chunk || x in used {
      if x >= n { assert chunk[x - n] == x; }
    }
    forall x | x in chunk ensures n <= x < n + |chunk| {
      var i :| 0 <= i < |chunk| && chunk[i] == x;
    }
  }

  lemma PartitionPops(free: seq<Slot>, used: set<Slot>, n: nat, rest: seq<Slot>, slot: Slot)
    requires Partition(free, used, n) && free == rest + [slot]
    ensures slot !in used && Partition(rest, used + {slot}, n)
  {
    assert free[|rest|] == slot && slot in free;
    forall x | x in rest ensures x < n && x !in used + {slot} {
      var i :| 0 <= i < |rest| && rest[i] == x;
      assert free[i] == x && x in free;
    }
    assert forall i :: 0 <= i < |rest| ==> rest[i] == free[i];
    forall x: Slot | x < n ensures x in rest || x in used + {slot} {
      assert x in free || x in used;
    }
  }

  lemma PartitionPushes(free: seq<Slot>, used: set<Slot>, n: nat, slot: Slot)
    requires Partition(free, used, n) && slot in used
    ensures Partition(free + [slot], used - {slot}, n)
  {
    var after := free + [slot];
    assert after[|free|] == slot;
    forall x: Slot | x < n ensures x in after || x in used - {slot} {
      assert x in free || x in used;
      if i :| 0 <= i < |free| && free[i] == x { assert after[i] == x; }
    }
  }

  lemma RefilledCovers(p: Pool, used: set<Slot>)
    requires Covers(p, used)
    ensures Covers(Refilled(p), used) && Refilled(p).free != []
    ensures p.free == [] ==> |used| == CHUNK_SLOTS * p.chunks
  {
    if p.free == [] {
      PartitionGrows(used, CHUNK_SLOTS * p.chunks, Chunk(p.chunks));
    }
  }

  /** A slot that is handed out was free, and nobody else has it. */
  lemma AllocatedCovers(p: Pool, used: set<Slot>)
    requires Covers(p, used)
    ensures Allocated(p).0 !in used
    ensures Covers(Allocated(p).1, used + {Allocated(p).0})
    ensures Allocated(p).1.chunks == if |used| == CHUNK_SLOTS * p.chunks then p.chunks + 1 else p.chunks
  {
    RefilledCovers(p, used);
    var (slot, q) := Allocated(p);
    PartitionPops(Refilled(p).free, used, CHUNK_SLOTS * q.chunks, q.free, slot);
  }

  lemma ReleasedCovers(p: Pool, used: set<Slot>, slot: Slot)
    requires Covers(p, used) && slot in used
    ensures Covers(Released(p, slot), used - {slot})
  {
    PartitionPushes(p.free, used, CHUNK_SLOTS * p.chunks, slot);
  }

  /** The slot put back last is handed out next, and nothing else changes. */
  lemma ReleasedIsNext(p: Pool, slot: Slot)
    ensures Allocated(Released(p, slot)) == (slot, p)
  {
    assert (p.free + [slot])[..|p.free|] == p.free;
  }

  /** The pool itself, behind its mutex. */
  class SlotPool {
    var chunks: nat
    var free: seq<Slot>

    ghost function View(): Pool reads this {
      Pool(chunks, free)
    }

    constructor ()
      ensures View() == Pool(0, [])
    {
      chunks, free := 0, [];
    }

    method Alloc() returns (slot: Slot)
      modifies this
      ensures (slot, View()) == Allocated(old(View()))
    {
      if free == [] {
        var i := 0;
        while i < CHUNK_SLOTS
          invariant 0 <= i <= CHUNK_SLOTS && chunks == old(chunks)
          invariant free == Chunk(chunks)[..i]
        {
          assert Chunk(chunks)[..i + 1] == Chunk(chunks)[..i] + [CHUNK_SLOTS * chunks + i];
          free := free + [CHUNK_SLOTS * chunks + i];
          i := i + 1;
        }
        assert Chunk(chunks)[..CHUNK_SLOTS] == Chunk(chunks);
        chunks := chunks + 1;
      }
      assert View() == Refilled(old(View()));
      slot := free[|free| - 1];
      free := free[..|free| - 1];
    }

    method Free(slot: Slot)
      modifies this
      ensures View() == Released(old(View()), slot)
    {
      free := free + [slot];
    }
  }
}

/** `RefSepGeneric`: the reference-counting machine with counters in pooled slots. No
    thread buffers anything; the addresses of the machine are the slots. */
module SepProtocol {
  import opened Basics
  import opened Deferred
  import opened RefProtocol
  import opened RefSafety
  import opened RefTheorems
  import opened SlotPool

  /** `peak` remembers the most slots ever in use at once. */
  datatype SepState = SepState(core: State, pool: Pool, peak: nat)

  datatype SepOutcome = SepNext(s: SepState) | SepFault

  datatype SepAction =
    | Create(ty: nat, kids: seq<nat>)
    | Core(act: Action)

  predicate SepEnabled(s: SepState, t: nat, act: SepAction) {
    match act
    case Create(_, kids) =>
      t < |s.core.threads| && s.core.threads[t].stack == Empty && multiset(kids) <= s.core.threads[t].strong
    case Core(a) => !a.New? && !a.Exit? && Enabled(s.core, t, a)
  }

  /** Creating takes a slot from the pool, and faults if that slot is still in use; the step
      that gives up the last weak count puts the slot back. Everything else is the counters. */
  function SepDo(s: SepState, t: nat, act: SepAction): SepOutcome
    requires SepEnabled(s, t, act)
  {
    match act
    case Create(ty, kids) =>
      var (slot, pool) := Allocated(s.pool);
      if slot in s.core.mem then SepFault
      else
        var r := Do(s.core, t, New(slot, ty, kids));
        if r.Fault? then SepFault else SepNext(SepState(r.s, pool, Max(s.peak, |r.s.mem|)))
    case Core(a) =>
      match Do(s.core, t, a)
      case Fault => SepFault
      case Next(c) =>
        var top := if s.core.threads[t].stack.Push? then s.core.threads[t].stack.top else Apply([]);
        if a.Tick? && top.Dealloc? && top.obj < |s.core.objs| then
          SepNext(s.(core := c, pool := Released(s.pool, s.core.objs[top.obj].addr)))
        else SepNext(s.(core := c))
  }

  function SepRun(s: SepState, schedule: seq<(nat, SepAction)>): SepOutcome
    decreases |schedule|
  {
    if schedule == [] then SepNext(s)
    else if SepEnabled(s, schedule[0].0, schedule[0].1) then
      match SepDo(s, schedule[0].0, schedule[0].1)
      case SepNext(s') => SepRun(s', schedule[1..])
      case SepFault => SepFault
    else SepRun(s, schedule[1..])
  }

  function SepInit(threads: nat): (s: SepState)
    ensures |s.core.threads| == threads
    ensures forall t :: 0 <= t < threads ==> !s.core.threads[t].tls && s.core.threads[t].stack == Empty
  {
    SepState(Init(seq(threads, i => false)), Pool(0, []), 0)
  }

  /** The slots in use are those of the objects that are not freed, and the pool grew no
      further than their peak made necessary. */
  ghost predicate SepInv(s: SepState) {
    && Inv(s.core)
    && Covers(s.pool, s.core.mem.Keys)
    && |s.core.mem| <= s.peak
    && CHUNK_SLOTS * s.pool.chunks <= s.peak + (CHUNK_SLOTS - 1)
  }

  lemma CreateSafe(s: SepState, t: nat, ty: nat, kids: seq<nat>)
    requires SepInv(s) && SepEnabled(s, t, Create(ty, kids))
    ensures SepDo(s, t, Create(ty, kids)).SepNext? && SepInv(SepDo(s, t, Create(ty, kids)).s)
  {
    AllocatedCovers(s.pool, s.core.mem.Keys);
    var slot := Allocated(s.pool).0;
    CoreNew(s.core, t, slot, ty, kids);
    PoolGrows(s, slot, Do(s.core, t, New(slot, ty, kids)).s.mem);
  }

  lemma CoreNew(c: State, t: nat, slot: Slot, ty: nat, kids: seq<nat>)
    requires Inv(c) && Enabled(c, t, New(slot, ty, kids))
    ensures var r := Do(c, t, New(slot, ty, kids)); r.Next? && Inv(r.s) && r.s.mem.Keys == c.mem.Keys + {slot}
  {
    NewGood(c, t, slot, ty, kids);
    assert Do(c, t, New(slot, ty, kids)).s.mem == c.mem[slot := |c.objs|];
  }

  /** The pool is refilled only when all its slots are in use. */
  lemma PoolGrows(s: SepState, slot: Slot, mem: map<Addr, nat>)
    requires Covers(s.pool, s.core.mem.Keys) && |s.core.mem| <= s.peak
    requires CHUNK_SLOTS * s.pool.chunks <= s.peak + (CHUNK_SLOTS - 1)
    requires slot == Allocated(s.pool).0 && slot !in s.core.mem && mem.Keys == s.core.mem.Keys + {slot}
    ensures CHUNK_SLOTS * Allocated(s.pool).1.chunks <= Max(s.peak, |mem|) + (CHUNK_SLOTS - 1)
  {
    AllocatedCovers(s.pool, s.core.mem.Keys);
    assert |mem| == |mem.Keys| && |s.core.mem| == |s.core.mem.Keys|;
  }

  /** The allocator's view changes only when memory is freed. */
  lemma MemAfter(s: State, t: nat, a: Action)
    requires Enabled(s, t, a) && !a.New? && Do(s, t, a).Next?
    ensures Do(s, t, a).s.mem ==
      if a.Tick? && s.threads[t].stack.top.Dealloc? then s.mem - {s.objs[s.threads[t].stack.top.obj].addr} else s.mem
  {
  }

  lemma CoreSafe(s: SepState, t: nat, a: Action)
    requires SepInv(s) && SepEnabled(s, t, Core(a))
    ensures SepDo(s, t, Core(a)).SepNext? && SepInv(SepDo(s, t, Core(a)).s)
  {
    StepSafe(s.core, t, a);
    MemAfter(s.core, t, a);
    if a.Tick? && s.core.threads[t].stack.top.Dealloc? {
      SlotFreed(s, s.core.threads[t].stack.top.obj, t, Do(s.core, t, a).s.mem);
    }
  }

  /** The slot of an object about to be freed is in use, by that object. */
  lemma SlotFreed(s: SepState, o: nat, t: nat, mem: map<Addr, nat>)
    requires SepInv(s) && t < |s.core.threads| && s.core.threads[t].stack.Push?
    requires s.core.threads[t].stack.top == Dealloc(o)
    requires o < |s.core.objs| && s.core.objs[o].phase != Freed && mem == s.core.mem - {s.core.objs[o].addr}
    ensures Covers(Released(s.pool, s.core.objs[o].addr), mem.Keys) && |mem| <= |s.core.mem|
  {
    var slot := s.core.objs[o].addr;
    assert Conserved(s.core, o);
    ReleasedCovers(s.pool, s.core.mem.Keys, slot);
    assert mem.Keys == s.core.mem.Keys - {slot};
    assert |mem| == |mem.Keys| && |s.core.mem| == |s.core.mem.Keys|;
  }

  lemma {:induction false} SepRunSafe(s: SepState, schedule: seq<(nat, SepAction)>)
    requires SepInv(s)
    ensures SepRun(s, schedule).SepNext? && SepInv(SepRun(s, schedule).s)
    decreases |schedule|
  {
    if schedule != [] {
      var (t, act) := schedule[0];
      if SepEnabled(s, t, act) {
        match act {
          case Create(ty, kids) => CreateSafe(s, t, ty, kids);
          case Core(a) => CoreSafe(s, t, a);
        }
        SepRunSafe(SepDo(s, t, act).s, schedule[1..]);
      } else {
        SepRunSafe(s, schedule[1..]);
      }
    }
  }

  /** Some handle or some step under way names the object: a drop between its parts, or an
      upgrade that has loaded the count and not yet exchanged it. */
  predicate Named(s: State, o: nat) {
    || LiveHandles(s, o) + Total(s.threads, WeakHandle(o)) + Total(s.threads, ToDrop(o)) +
       Total(s.threads, Share(o)) + Total(s.threads, ToFree(o)) > 0
    || UpgradeUnderWay(s, o)
  }

  predicate UpgradeUnderWay(s: State, o: nat) {
    exists t | 0 <= t < |s.threads| ::
      s.threads[t].stack.Push? && s.threads[t].stack.top.Upgrade? && s.threads[t].stack.top.obj == o
  }

  /** The slot is the slot of an object that is not freed, and it is not free. */
  ghost predicate InUse(s: SepState, slot: Slot) {
    && slot in s.core.mem && s.core.mem[slot] < |s.core.objs|
    && s.core.objs[s.core.mem[slot]].addr == slot && Stage(s.core, s.core.mem[slot]) < 3
    && slot !in s.pool.free && slot < CHUNK_SLOTS * s.pool.chunks
  }

  /** Every slot is free once or the slot of exactly one object that is not freed; a slot that
      any handle, or any drop or upgrade under way, still names is in use, and so is a slot
      with a decrement that a drop has not yet made; and the pool is no larger than the peak
      of slots in use made necessary. */
  ghost predicate SlotsSound(s: SepState) {
    && |s.pool.free| + |s.core.mem| == 4096 * s.pool.chunks <= s.peak + 4095
    && (forall i, j :: 0 <= i < j < |s.pool.free| ==> s.pool.free[i] != s.pool.free[j])
    && (forall o, p :: 0 <= o < p < |s.core.objs| && Stage(s.core, o) < 3 && Stage(s.core, p) < 3 ==>
          s.core.objs[o].addr != s.core.objs[p].addr)
    && (forall o: nat :: Named(s.core, o) ==>
          o < |s.core.objs| && Stage(s.core, o) < 3 && InUse(s, s.core.objs[o].addr))
    && (forall slot: Slot :: Total(s.core.threads, Owed(slot)) > 0 ==> InUse(s, slot))
  }

  lemma NamedIsThere(s: State, o: nat)
    requires Inv(s) && Named(s, o)
    ensures o < |s.objs| && s.objs[o].phase != Freed && s.objs[o].addr in s.mem && s.mem[s.objs[o].addr] == o
  {
    if UpgradeUnderWay(s, o) {
      var t :| 0 <= t < |s.threads| && s.threads[t].stack.Push? && s.threads[t].stack.top.Upgrade? &&
               s.threads[t].stack.top.obj == o;
      UpgradeTarget(s, t);
    }
    assert o >= |s.objs| ==> Unborn(s, o);
    assert Conserved(s, o);
  }

  lemma UsedInUse(s: SepState, o: nat)
    requires SepInv(s) && o < |s.core.objs| && s.core.objs[o].phase != Freed && s.core.objs[o].addr in s.core.mem
    requires s.core.mem[s.core.objs[o].addr] == o
    ensures Stage(s.core, o) < 3 && InUse(s, s.core.objs[o].addr)
  {
    assert s.core.objs[o].addr in s.core.mem.Keys;
  }

  lemma OwedInUse(s: SepState, slot: Slot)
    requires SepInv(s) && Total(s.core.threads, Owed(slot)) > 0
    ensures InUse(s, slot)
  {
    assert slot in s.core.mem;
    UsedInUse(s, s.core.mem[slot]);
  }

  lemma SlotsDiffer(s: State, o: nat, p: nat)
    requires Inv(s) && o < p < |s.objs| && Stage(s, o) < 3 && Stage(s, p) < 3
    ensures s.objs[o].addr != s.objs[p].addr
  {
    assert Conserved(s, o) && Conserved(s, p);
  }

  lemma InvSlots(s: SepState)
    requires SepInv(s)
    ensures SlotsSound(s)
  {
    assert |s.core.mem| == |s.core.mem.Keys|;
    forall o, p | 0 <= o < p < |s.core.objs| && Stage(s.core, o) < 3 && Stage(s.core, p) < 3
      ensures s.core.objs[o].addr != s.core.objs[p].addr
    {
      SlotsDiffer(s.core, o, p);
    }
    forall o: nat | Named(s.core, o)
      ensures o < |s.core.objs| && Stage(s.core, o) < 3 && InUse(s, s.core.objs[o].addr)
    {
      NamedIsThere(s.core, o);
      UsedInUse(s, o);
    }
    forall slot: Slot | Total(s.core.threads, Owed(slot)) > 0 ensures InUse(s, slot) {
      OwedInUse(s, slot);
    }
  }

  /** Main theorem for pooled counts: at every point of every run nothing has faulted, the
      counters are exact, every handle is valid, and recycling slots never aliases objects. */
  lemma SlotsNeverAlias(threads: nat, schedule: seq<(nat, SepAction)>)
    ensures SepRun(SepInit(threads), schedule).SepNext?
    ensures var s := SepRun(SepInit(threads), schedule).s;
      CountsExact(s.core) && HandlesValid(s.core) && SlotsSound(s)
  {
    var s0 := SepInit(threads);
    assert SepInv(s0) by { InitInv(seq(threads, i => false)); }
    SepRunSafe(s0, schedule);
    InvMeaning(SepRun(s0, schedule).s.core);
    InvSlots(SepRun(s0, schedule).s);
  }

  // ---------------------------------------------------------------- once and only once

  /** The step of the counting machine that a step here amounts to. */
  function CoreAction(s: SepState, act: SepAction): Action {
    match act
    case Create(ty, kids) => New(Allocated(s.pool).0, ty, kids)
    case Core(a) => a
  }

  lemma StepProjects(s: SepState, t: nat, act: SepAction)
    requires SepInv(s) && SepEnabled(s, t, act)
    ensures Enabled(s.core, t, CoreAction(s, act))
    ensures SepDo(s, t, act).SepNext? && SepInv(SepDo(s, t, act).s)
    ensures Do(s.core, t, CoreAction(s, act)) == Next(SepDo(s, t, act).s.core)
  {
    match act
    case Create(ty, kids) =>
      AllocatedCovers(s.pool, s.core.mem.Keys);
      CreateSafe(s, t, ty, kids);
    case Core(a) => CoreSafe(s, t, a);
  }

  /** A run here, seen as a run of the counting machine. */
  function Projected(s: SepState, schedule: seq<(nat, SepAction)>): seq<(nat, Action)>
    decreases |schedule|
  {
    if schedule == [] then []
    else
      var (t, act) := schedule[0];
      if SepEnabled(s, t, act) && SepDo(s, t, act).SepNext? then
        [(t, CoreAction(s, act))] + Projected(SepDo(s, t, act).s, schedule[1..])
      else Projected(s, schedule[1..])
  }

  /** How often the steps of a run take object `o` into a stage. */
  function SepEntered(s: SepState, schedule: seq<(nat, SepAction)>, o: nat, stage: nat): nat
    decreases |schedule|
  {
    if schedule == [] then 0
    else
      var (t, act) := schedule[0];
      if SepEnabled(s, t, act) && SepDo(s, t, act).SepNext? then
        var s' := SepDo(s, t, act).s;
        var now := if Stage(s.core, o) != stage && Stage(s'.core, o) == stage then 1 else 0;
        now + SepEntered(s', schedule[1..], o, stage)
      else SepEntered(s, schedule[1..], o, stage)
  }

  /** The step puts the slot of `o`, not freed so far, back into the pool. */
  predicate Returns(s: SepState, s': SepState, o: nat) {
    o < |s.core.objs| && Stage(s.core, o) < 3 && s'.pool == Released(s.pool, s.core.objs[o].addr)
  }

  /** How often the steps of a run put the slot of `o` back into the pool. */
  function Returned(s: SepState, schedule: seq<(nat, SepAction)>, o: nat): nat
    decreases |schedule|
  {
    if schedule == [] then 0
    else
      var (t, act) := schedule[0];
      if SepEnabled(s, t, act) && SepDo(s, t, act).SepNext? then
        (if Returns(s, SepDo(s, t, act).s, o) then 1 else 0) + Returned(SepDo(s, t, act).s, schedule[1..], o)
      else Returned(s, schedule[1..], o)
  }

  /** A step puts a slot back exactly when it frees the object the slot belongs to. */
  lemma StepReturns(s: SepState, t: nat, act: SepAction, o: nat)
    requires SepInv(s) && SepEnabled(s, t, act) && SepDo(s, t, act).SepNext?
    ensures Returns(s, SepDo(s, t, act).s, o) <==> Stage(s.core, o) != 3 && Stage(SepDo(s, t, act).s.core, o) == 3
  {
    StepProjects(s, t, act);
    var s' := SepDo(s, t, act).s;
    if Frees(s.core, t, CoreAction(s, act)) {
      var p := s.core.threads[t].stack.top.obj;
      DeallocDoes(s.core, t, act.act);
      SlotReturns(s, s', p, o);
    } else {
      OnlyDeallocFrees(s.core, t, CoreAction(s, act), o);
      KeepsSlots(s, t, act, o);
    }
  }

  /** Whatever the counting machine can do from here, threads with pooled counters can do; new
      objects are possible whenever the handles for their fields are there. */
  lemma StepsArePossible(s: SepState, t: nat, ty: nat, kids: seq<nat>, a: Action)
    ensures t < |s.core.threads| && s.core.threads[t].stack == Empty && multiset(kids) <= s.core.threads[t].strong ==>
      SepEnabled(s, t, Create(ty, kids))
    ensures Enabled(s.core, t, a) && !a.New? && !a.Exit? ==> SepEnabled(s, t, Core(a))
  {
  }

  /** The peak is the most slots that were in use after any step, and no more. */
  lemma PeakIsAttained(s: SepState, t: nat, act: SepAction)
    requires SepInv(s) && SepEnabled(s, t, act) && SepDo(s, t, act).SepNext?
    ensures SepDo(s, t, act).s.peak == Max(s.peak, |SepDo(s, t, act).s.core.mem|)
  {
    StepProjects(s, t, act);
  }

  predicate Frees(s: State, t: nat, act: Action) {
    act.Tick? && t < |s.threads| && s.threads[t].stack.Push? && s.threads[t].stack.top.Dealloc?
  }

  lemma DeallocDoes(s: State, t: nat, act: Action)
    requires Enabled(s, t, act) && Frees(s, t, act) && Do(s, t, act).Next?
    ensures var p := s.threads[t].stack.top.obj;
      p < |s.objs| && s.objs[p].phase == Dropped && Do(s, t, act).s.objs == s.objs[p := s.objs[p].(phase := Freed)]
  {
  }

  lemma OnlyDeallocFrees(s: State, t: nat, act: Action, o: nat)
    requires Enabled(s, t, act) && !Frees(s, t, act) && Do(s, t, act).Next?
    ensures Stage(s, o) != 3 ==> Stage(Do(s, t, act).s, o) != 3
  {
  }

  lemma SlotReturns(s: SepState, s': SepState, p: nat, o: nat)
    requires Inv(s.core) && p < |s.core.objs| && s.core.objs[p].phase == Dropped
    requires s'.core.objs == s.core.objs[p := s.core.objs[p].(phase := Freed)]
    requires s'.pool == Released(s.pool, s.core.objs[p].addr)
    ensures Returns(s, s', o) <==> Stage(s.core, o) != 3 && Stage(s'.core, o) == 3
  {
    if o < |s.core.objs| && Stage(s.core, o) < 3 && o != p {
      if o < p { SlotsDiffer(s.core, o, p); } else { SlotsDiffer(s.core, p, o); }
      var free, x, y := s.pool.free, s.core.objs[o].addr, s.core.objs[p].addr;
      assert (free + [x])[|free|] == x && (free + [y])[|free|] == y;
    }
  }

  lemma KeepsSlots(s: SepState, t: nat, act: SepAction, o: nat)
    requires SepEnabled(s, t, act) && SepDo(s, t, act).SepNext? && !Frees(s.core, t, CoreAction(s, act))
    ensures !Returns(s, SepDo(s, t, act).s, o)
  {
    assert SepDo(s, t, act).s.pool in {s.pool, Allocated(s.pool).1};
    NotReleased(s.pool, if o < |s.core.objs| then s.core.objs[o].addr else 0);
  }

  lemma NotReleased(p: Pool, slot: Slot)
    ensures Released(p, slot) != p && Released(p, slot) != Allocated(p).1
  {
    assert |Released(p, slot).free| == |p.free| + 1;
    assert p.free == [] ==> Allocated(p).1.chunks == p.chunks + 1;
  }

  /** Main theorem for pooled counts, over whole runs: data is dropped at most once, and the
      slot of an object goes back to the pool at most once, and as often as the object has
      been freed in the end. */
  lemma ReturnedOnce(s: SepState, schedule: seq<(nat, SepAction)>, o: nat, stage: nat)
    requires SepInv(s)
    ensures SepRun(s, schedule).SepNext?
    ensures var final := SepRun(s, schedule).s;
      && SepEntered(s, schedule, o, stage) == (if Stage(s.core, o) < stage <= Stage(final.core, o) then 1 else 0)
      && Returned(s, schedule, o) == (if Stage(s.core, o) < 3 == Stage(final.core, o) then 1 else 0)
  {
    ProjectedRun(s, schedule);
    forall k: nat ensures SepEntered(s, schedule, o, k) == Entered(s.core, Projected(s, schedule), o, k) {
      ProjectedEntered(s, schedule, o, k);
    }
    EnteredOnce(s.core, Projected(s, schedule), o, stage);
    EnteredOnce(s.core, Projected(s, schedule), o, 3);
    ReturnedWhenFreed(s, schedule, o);
  }

  /** Every run with pooled counters is a run of the counting machine. */
  lemma {:induction false} ProjectedRun(s: SepState, schedule: seq<(nat, SepAction)>)
    requires SepInv(s)
    ensures SepRun(s, schedule).SepNext?
    ensures Run(s.core, Projected(s, schedule)) == Next(SepRun(s, schedule).s.core)
    decreases |schedule|
  {
    if schedule != [] {
      var (t, act) := schedule[0];
      if SepEnabled(s, t, act) {
        StepProjects(s, t, act);
        var s' := SepDo(s, t, act).s;
        ProjectedRun(s', schedule[1..]);
        assert Projected(s, schedule)[1..] == Projected(s', schedule[1..]);
      } else {
        ProjectedRun(s, schedule[1..]);
      }
    }
  }

  lemma {:induction false} ProjectedEntered(s: SepState, schedule: seq<(nat, SepAction)>, o: nat, stage: nat)
    requires SepInv(s)
    ensures SepEntered(s, schedule, o, stage) == Entered(s.core, Projected(s, schedule), o, stage)
    decreases |schedule|
  {
    if schedule != [] {
      var (t, act) := schedule[0];
      if SepEnabled(s, t, act) {
        StepProjects(s, t, act);
        var s' := SepDo(s, t, act).s;
        ProjectedEntered(s', schedule[1..], o, stage);
        assert Projected(s, schedule)[1..] == Projected(s', schedule[1..]);
      } else {
        ProjectedEntered(s, schedule[1..], o, stage);
      }
    }
  }

  lemma {:induction false} ReturnedWhenFreed(s: SepState, schedule: seq<(nat, SepAction)>, o: nat)
    requires SepInv(s)
    ensures Returned(s, schedule, o) == SepEntered(s, schedule, o, 3)
    decreases |schedule|
  {
    if schedule != [] {
      var (t, act) := schedule[0];
      if SepEnabled(s, t, act) {
        StepProjects(s, t, act);
        StepReturns(s, t, act, o);
        ReturnedWhenFreed(SepDo(s, t, act).s, schedule[1..], o);
      } else {
        ReturnedWhenFreed(s, schedule[1..], o);
      }
    }
  }
}
