/** Reference counting with strong and weak counts as a machine of atomic steps, taken by
    any number of threads in any order. One machine serves both protocols of the
    repository: a thread whose buffer is available defers its decrements
    (`RefTlc`, hirpdag_hashconsing/src/reference/tlc.rs), a thread without one touches
    the shared counters at once (`RefTlc` during thread exit, and `RefSepGeneric`,
    hirpdag_hashconsing/src/reference/sepcount.rs). */
module RefProtocol {
  import opened Deferred

  datatype Phase = Intact | Dropped | Freed

  /** One object ever created, numbered by its creation. `addr` is where its counters
      live; an address is used again once its object is freed. `kids` are the strong
      handles inside its data. */
  datatype Obj = Obj(addr: Addr, ty: nat, kids: seq<nat>, strong: nat, weak: nat, phase: Phase)

  /** What a thread still has to do inside a drop or an upgrade, innermost first. */
  datatype Frame =
    | Apply(todo: seq<Pending>)                          // apply drained decrements
    | Doomed(obj: nat)                                   // strong count hit zero, data still there
    | Kids(obj: nat, rest: seq<nat>)                     // data going away, these fields still to drop
    | Dealloc(obj: nat)                                  // weak count hit zero
    | Upgrade(obj: nat, lender: nat, seen: nat)          // compare-exchange loop, last value seen

  datatype Stack = Empty | Push(top: Frame, below: Stack)

  datatype Thread = Thread(strong: multiset<nat>, weak: multiset<nat>, tls: bool, buf: Buffer, stack: Stack)

  /** `mem` is the allocator's view: which object lives at an address now. */
  datatype State = State(objs: seq<Obj>, mem: map<Addr, nat>, threads: seq<Thread>)

  /** A step faults when it touches freed memory, drops data twice, frees twice, frees
      memory whose data was never dropped, calls a release function of the wrong type or
      takes a counter below zero. */
  datatype Outcome = Next(s: State) | Fault

  datatype Action =
    | New(addr: Addr, ty: nat, kids: seq<nat>)
    | Clone(o: nat)
    | Drop(o: nat, order: seq<Addr>)
    | Downgrade(o: nat)
    | DropWeak(o: nat)
    | BeginUpgrade(o: nat, lender: nat)
    | SendStrong(o: nat, to: nat)
    | SendWeak(o: nat, to: nat)
    | Exit(order: seq<Addr>)
    | Tick(order: seq<Addr>, spurious: bool)

  // ---------------------------------------------------------------- the steps

  /** Dropping a strong handle: buffer the decrement if the buffer is available, else
      release directly. Only the thread itself changes. */
  function DropHandle(th: Thread, x: Obj, order: seq<Addr>): Thread
    requires FlushOrder(th, x, order)
  {
    if !th.tls then
      th.(stack := Push(Apply([Pending(x.addr, Entry(1, x.ty))]), th.stack))
    else
      var b := Counted(th.buf, x.addr, x.ty);
      if MustFlush(b) then
        th.(buf := EMPTY, stack := Push(Apply(Drained(b.entries, order)), th.stack))
      else
        th.(buf := b)
  }

  /** `order` is an order the buffer may drain in, if this drop is one that flushes it. */
  predicate FlushOrder(th: Thread, x: Obj, order: seq<Addr>) {
    th.tls && MustFlush(Counted(th.buf, x.addr, x.ty)) ==> IsOrder(order, Counted(th.buf, x.addr, x.ty).entries)
  }

  /** Somebody holds a strong handle to `o`: a thread, or data that is still there. */
  predicate Borrowable(s: State, o: nat) {
    || (exists u | 0 <= u < |s.threads| :: o in s.threads[u].strong)
    || (exists p | 0 <= p < |s.objs| :: s.objs[p].phase == Intact && o in s.objs[p].kids)
  }

  /** Some thread is inside an upgrade through a weak handle that `u` owns. */
  predicate Lent(s: State, u: nat, o: nat) {
    exists t | 0 <= t < |s.threads| ::
      s.threads[t].stack.Push? && s.threads[t].stack.top.Upgrade? &&
      s.threads[t].stack.top.obj == o && s.threads[t].stack.top.lender == u
  }

  /** What the language lets thread `t` do: use handles it has or borrows, move handles
      that are not borrowed, and finish a drop or an upgrade before anything else. */
  predicate Enabled(s: State, t: nat, act: Action) {
    && t < |s.threads|
    && var th := s.threads[t];
    && (act.Tick? <==> th.stack.Push?)
    && match act
       case New(addr, _, kids) => addr !in s.mem && multiset(kids) <= th.strong
       case Clone(o) => o < |s.objs| && Borrowable(s, o)
       case Drop(o, order) => o < |s.objs| && o in th.strong && FlushOrder(th, s.objs[o], order)
       case Downgrade(o) => o < |s.objs| && Borrowable(s, o)
       case DropWeak(o) => o < |s.objs| && th.weak[o] > (if Lent(s, t, o) then 1 else 0)
       case BeginUpgrade(o, lender) => o < |s.objs| && lender < |s.threads| && o in s.threads[lender].weak
       case SendStrong(o, to) => to < |s.threads| && to != t && o in th.strong
       case SendWeak(o, to) => to < |s.threads| && to != t && th.weak[o] > (if Lent(s, t, o) then 1 else 0)
       case Exit(order) => th.tls && IsOrder(order, th.buf.entries)
       case Tick(order, _) =>
         match th.stack.top
         case Kids(_, rest) =>
           rest != [] && rest[0] < |s.objs| ==> FlushOrder(th, s.objs[rest[0]], order)
         case _ => true
  }

  function SetThread(s: State, t: nat, th: Thread): State
    requires t < |s.threads|
  {
    s.(threads := s.threads[t := th])
  }

  function SetBoth(s: State, o: nat, x: Obj, t: nat, th: Thread): State
    requires t < |s.threads| && o < |s.objs|
  {
    s.(objs := s.objs[o := x], threads := s.threads[t := th])
  }

  function Do(s: State, t: nat, act: Action): Outcome
    requires Enabled(s, t, act)
  {
    var th := s.threads[t];
    match act
    case New(addr, ty, kids) =>
      var o: nat := |s.objs|;
      var given: multiset<nat> := multiset(kids);
      Next(State(s.objs + [Obj(addr, ty, kids, 1, 1, Intact)], s.mem[addr := o],
                 s.threads[t := th.(strong := th.strong - given + multiset{o})]))
    case Clone(o) => DoClone(s, t, o)
    case Drop(o, order) =>
      Next(SetThread(s, t, DropHandle(th.(strong := th.strong - multiset{o}), s.objs[o], order)))
    case Downgrade(o) => DoDowngrade(s, t, o)
    case DropWeak(o) =>
      WeakRelease(s, t, th.(weak := th.weak - multiset{o}), o)
    case BeginUpgrade(o, lender) =>
      var x := s.objs[o];
      if th.tls && x.addr in th.buf.entries then
        Next(SetThread(s, t, th.(strong := th.strong + multiset{o}, buf := Consumed(th.buf, x.addr))))
      else if x.phase == Freed then Fault
      else if x.strong == 0 then Next(s)
      else Next(SetThread(s, t, th.(stack := Push(Upgrade(o, lender, x.strong), th.stack))))
    case SendStrong(o, to) =>
      Next(SetThread(SetThread(s, t, th.(strong := th.strong - multiset{o})), to,
                     s.threads[to].(strong := s.threads[to].strong + multiset{o})))
    case SendWeak(o, to) =>
      Next(SetThread(SetThread(s, t, th.(weak := th.weak - multiset{o})), to,
                     s.threads[to].(weak := s.threads[to].weak + multiset{o})))
    case Exit(order) =>
      Next(SetThread(s, t, th.(tls := false, buf := EMPTY,
                               stack := Push(Apply(Drained(th.buf.entries, order)), th.stack))))
    case Tick(order, spurious) => DoTick(s, t, order, spurious)
  }

  /** A new strong handle: cancel a buffered decrement if there is one, else count up. */
  function DoClone(s: State, t: nat, o: nat): Outcome
    requires t < |s.threads| && o < |s.objs|
  {
    var th, x := s.threads[t], s.objs[o];
    var th' := th.(strong := th.strong + multiset{o});
    if th.tls && x.addr in th.buf.entries then
      Next(SetThread(s, t, th'.(buf := Consumed(th.buf, x.addr))))
    else if x.phase == Freed then Fault
    else Next(SetBoth(s, o, x.(strong := x.strong + 1), t, th'))
  }

  function DoDowngrade(s: State, t: nat, o: nat): Outcome
    requires t < |s.threads| && o < |s.objs|
  {
    var th, x := s.threads[t], s.objs[o];
    if x.phase == Freed then Fault
    else Next(SetBoth(s, o, x.(weak := x.weak + 1), t, th.(weak := th.weak + multiset{o})))
  }

  /** One weak count given up; `th` is the thread after giving it up. */
  function WeakRelease(s: State, t: nat, th: Thread, o: nat): Outcome
    requires t < |s.threads| && o < |s.objs|
  {
    var x := s.objs[o];
    if x.phase == Freed || x.weak == 0 then Fault
    else Next(SetBoth(s, o, x.(weak := x.weak - 1), t, AfterWeak(th, o, x)))
  }

  /** The last one out frees the memory. */
  function AfterWeak(th: Thread, o: nat, x: Obj): Thread {
    if x.weak == 1 then th.(stack := Push(Dealloc(o), th.stack)) else th
  }

  /** The next atomic step of the drop or upgrade thread `t` is in. */
  function DoTick(s: State, t: nat, order: seq<Addr>, spurious: bool): Outcome
    requires Enabled(s, t, Tick(order, spurious))
  {
    var th := s.threads[t];
    var rest := th.(stack := th.stack.below);
    match th.stack.top
    case Apply(todo) =>
      if todo == [] then Next(SetThread(s, t, rest))
      else
        var p := todo[0];
        if p.addr !in s.mem || s.mem[p.addr] >= |s.objs| then Fault
        else
          var o := s.mem[p.addr];
          var x := s.objs[o];
          if x.phase == Freed || x.ty != p.entry.release || x.strong < p.entry.count then Fault
          else
            Next(SetBoth(s, o, AfterRelease(th, x), t, AfterApply(th, o, x)))
    case Doomed(o) =>
      if o >= |s.objs| || s.objs[o].phase != Intact then Fault
      else Next(SetBoth(s, o, s.objs[o].(phase := Dropped), t,
                        rest.(stack := Push(Kids(o, s.objs[o].kids), rest.stack))))
    case Kids(o, kids) =>
      if o >= |s.objs| then Fault
      else if kids == [] then WeakRelease(s, t, rest, o)
      else if kids[0] >= |s.objs| then Fault
      else
        Next(SetThread(s, t, DropHandle(rest.(stack := Push(Kids(o, kids[1..]), rest.stack)), s.objs[kids[0]], order)))
    case Dealloc(o) =>
      if o >= |s.objs| || s.objs[o].phase != Dropped then Fault
      else Next(SetBoth(s, o, s.objs[o].(phase := Freed), t, rest).(mem := s.mem - {s.objs[o].addr}))
    case Upgrade(o, lender, seen) =>
      if o >= |s.objs| || s.objs[o].phase == Freed then Fault
      else
        var x := s.objs[o];
        if x.strong == seen && !spurious then
          Next(SetBoth(s, o, x.(strong := x.strong + 1), t, rest.(strong := th.strong + multiset{o})))
        else if x.strong == 0 then Next(SetThread(s, t, rest))
        else Next(SetThread(s, t, rest.(stack := Push(Upgrade(o, lender, x.strong), rest.stack))))
  }

  /** The object after the first decrement in the list is applied. */
  function AfterRelease(th: Thread, x: Obj): Obj
    requires th.stack.Push? && th.stack.top.Apply? && th.stack.top.todo != []
    requires x.strong >= th.stack.top.todo[0].entry.count
  {
    x.(strong := x.strong - th.stack.top.todo[0].entry.count)
  }

  /** The thread then: whoever takes the count to zero has to drop the data. */
  function AfterApply(th: Thread, o: nat, x: Obj): Thread
    requires th.stack.Push? && th.stack.top.Apply? && th.stack.top.todo != []
  {
    var st := Push(Apply(th.stack.top.todo[1..]), th.stack.below);
    th.(stack := if x.strong == th.stack.top.todo[0].entry.count then Push(Doomed(o), st) else st)
  }

  /** A schedule: which thread acts, and how. Entries the language forbids are skipped. */
  function Run(s: State, schedule: seq<(nat, Action)>): Outcome
    decreases |schedule|
  {
    if schedule == [] then Next(s)
    else if Enabled(s, schedule[0].0, schedule[0].1) then
      match Do(s, schedule[0].0, schedule[0].1)
      case Next(s') => Run(s', schedule[1..])
      case Fault => Fault
    else Run(s, schedule[1..])
  }

  /** `tls[t]` says whether thread `t` has a buffer. */
  function Init(tls: seq<bool>): (s: State)
    ensures |s.threads| == |tls|
    ensures forall t :: 0 <= t < |tls| ==> s.threads[t].tls == tls[t] && s.threads[t].stack == Empty
  {
    State([], map[], seq(|tls|, i requires 0 <= i < |tls| => Thread(multiset{}, multiset{}, tls[i], EMPTY, Empty)))
  }

  // ---------------------------------------------------------------- who is owed what

  /** The claims a thread can have on an object or an address. */
  datatype Token =
    | Handle(o: nat)        // a strong handle
    | Owed(a: Addr)         // a decrement not yet applied to the counter at `a`
    | WeakHandle(o: nat)
    | ToDrop(o: nat)        // the duty to drop the data
    | Share(o: nat)         // the duty to give back the weak count of the strong side
    | ToFree(o: nat)        // the duty to free the memory

  function FrameTokens(f: Frame, k: Token): nat {
    match k
    case Handle(o) => if f.Kids? then multiset(f.rest)[o] else 0
    case Owed(a) => if f.Apply? then Owing(f.todo, a) else 0
    case WeakHandle(_) => 0
    case ToDrop(o) => if f.Doomed? && f.obj == o then 1 else 0
    case Share(o) => if f.Kids? && f.obj == o then 1 else 0
    case ToFree(o) => if f.Dealloc? && f.obj == o then 1 else 0
  }

  function StackTokens(st: Stack, k: Token): nat {
    match st
    case Empty => 0
    case Push(f, below) => FrameTokens(f, k) + StackTokens(below, k)
  }

  function Tokens(th: Thread, k: Token): nat {
    StackTokens(th.stack, k) +
    match k
    case Handle(o) => th.strong[o]
    case Owed(a) => Amount(th.buf.entries, a)
    case WeakHandle(o) => th.weak[o]
    case _ => 0
  }

  function Total(ts: seq<Thread>, k: Token): nat {
    if ts == [] then 0 else Tokens(ts[0], k) + Total(ts[1..], k)
  }

  function Refs(x: Obj, o: nat): nat {
    if x.phase == Intact then multiset(x.kids)[o] else 0
  }

  /** Strong handles to `o` inside data that is still there. */
  function FieldRefs(objs: seq<Obj>, o: nat): nat {
    if objs == [] then 0 else Refs(objs[0], o) + FieldRefs(objs[1..], o)
  }

  function LiveHandles(s: State, o: nat): nat {
    Total(s.threads, Handle(o)) + FieldRefs(s.objs, o)
  }

  // ---------------------------------------------------------------- the invariant

  /** All claims on one object, added up over the threads and the data still there. */
  datatype Claims = Claims(handles: int, owed: int, weak: int, toDrop: int, share: int, toFree: int)

  function ClaimsOn(s: State, o: nat, a: Addr): Claims {
    Claims(LiveHandles(s, o), Total(s.threads, Owed(a)), Total(s.threads, WeakHandle(o)),
           Total(s.threads, ToDrop(o)), Total(s.threads, Share(o)), Total(s.threads, ToFree(o)))
  }

  /** The conservation laws of an object that is not freed. */
  predicate Balanced(x: Obj, c: Claims) {
    && x.strong == c.handles + c.owed
    && x.weak == c.weak + (if x.strong > 0 then 1 else c.toDrop + c.share)
    && (x.phase == Intact ==> c.toDrop == (if x.strong == 0 then 1 else 0) && c.share == c.toFree == 0)
    && (x.phase == Dropped ==> x.strong == c.toDrop == 0 && c.share <= 1 && c.toFree == (if x.weak == 0 then 1 else 0))
  }

  /** No counter shows anything of a freed object and no thread has any claim on it. */
  predicate Conserved(s: State, o: nat)
    requires o < |s.objs|
  {
    var x := s.objs[o];
    if x.phase == Freed then
      x.strong == x.weak == 0 && ClaimsOn(s, o, x.addr).(owed := 0) == Claims(0, 0, 0, 0, 0, 0)
    else
      x.addr in s.mem && s.mem[x.addr] == o && Balanced(x, ClaimsOn(s, o, x.addr))
  }

  /** Nobody refers to an object that was never created. */
  ghost predicate Unborn(s: State, o: nat) {
    ClaimsOn(s, o, 0).(owed := 0) == Claims(0, 0, 0, 0, 0, 0)
  }

  predicate Typed(s: State, p: Pending) {
    p.entry.count > 0 &&
    (p.addr in s.mem && s.mem[p.addr] < |s.objs| ==> p.entry.release == s.objs[s.mem[p.addr]].ty)
  }

  ghost predicate StackOk(s: State, st: Stack) {
    match st
    case Empty => true
    case Push(f, below) =>
      && (f.Apply? ==> forall p :: p in f.todo ==> Typed(s, p))
      && (below.Push? ==> !below.top.Upgrade?)
      && StackOk(s, below)
  }

  ghost predicate ThreadOk(s: State, th: Thread) {
    && (forall a :: a in th.buf.entries ==> Typed(s, Pending(a, th.buf.entries[a])))
    && Bounded(th.buf)
    && (!th.tls ==> th.buf == EMPTY)
    && StackOk(s, th.stack)
    && (th.stack.Push? && th.stack.top.Upgrade? ==>
          && th.stack.top.lender < |s.threads|
          && th.stack.top.obj in s.threads[th.stack.top.lender].weak
          && th.stack.top.seen > 0)
  }

  ghost predicate Inv(s: State) {
    && (forall o :: 0 <= o < |s.objs| ==> Conserved(s, o))
    && (forall o :: o >= |s.objs| ==> Unborn(s, o))
    && (forall o, k :: 0 <= o < |s.objs| && k in s.objs[o].kids ==> k < o)
    && (forall a :: a in s.mem ==> s.mem[a] < |s.objs| && s.objs[s.mem[a]].addr == a && s.objs[s.mem[a]].phase != Freed)
    && (forall a :: a !in s.mem ==> Total(s.threads, Owed(a)) == 0)
    && (forall t :: 0 <= t < |s.threads| ==> ThreadOk(s, s.threads[t]))
  }

  // ---------------------------------------------------------------- sums

  lemma {:induction false} TotalSet(ts: seq<Thread>, t: nat, th: Thread, k: Token)
    requires t < |ts|
    ensures Total(ts[t := th], k) == Total(ts, k) - Tokens(ts[t], k) + Tokens(th, k)
    ensures Tokens(ts[t], k) <= Total(ts, k)
  {
    if t == 0 {
      assert ts[t := th][1..] == ts[1..];
    } else {
      assert ts[t := th][1..] == ts[1..][t - 1 := th];
      TotalSet(ts[1..], t - 1, th, k);
    }
  }

  lemma TotalsSet(ts: seq<Thread>, t: nat, th: Thread)
    requires t < |ts|
    ensures forall k :: Total(ts[t := th], k) == Total(ts, k) - Tokens(ts[t], k) + Tokens(th, k)
    ensures forall k :: Tokens(ts[t], k) <= Total(ts, k)
  {
    forall k
      ensures Total(ts[t := th], k) == Total(ts, k) - Tokens(ts[t], k) + Tokens(th, k)
      ensures Tokens(ts[t], k) <= Total(ts, k)
    {
      TotalSet(ts, t, th, k);
    }
  }

  lemma {:induction false} FieldRefsSet(objs: seq<Obj>, i: nat, x: Obj, o: nat)
    requires i < |objs|
    ensures FieldRefs(objs[i := x], o) == FieldRefs(objs, o) - Refs(objs[i], o) + Refs(x, o)
    ensures Refs(objs[i], o) <= FieldRefs(objs, o)
  {
    if i == 0 {
      assert objs[i := x][1..] == objs[1..];
    } else {
      assert objs[i := x][1..] == objs[1..][i - 1 := x];
      FieldRefsSet(objs[1..], i - 1, x, o);
    }
  }

  lemma {:induction false} FieldRefsAppend(objs: seq<Obj>, x: Obj, o: nat)
    ensures FieldRefs(objs + [x], o) == FieldRefs(objs, o) + Refs(x, o)
  {
    if objs == [] {
      assert (objs + [x])[1..] == [];
    } else {
      assert (objs + [x])[1..] == objs[1..] + [x];
      FieldRefsAppend(objs[1..], x, o);
    }
  }
}
