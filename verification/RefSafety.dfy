/** Safety of the reference-counting machine: no step of any schedule faults, and the
    conservation laws hold in between. */
module RefSafety {
  import opened Deferred
  import opened RefProtocol

  // ---------------------------------------------------------------- facts about one state

  /** A handle somebody can name belongs to an object whose data is there and whose
      counter shows it. */
  lemma HandleMeansIntact(s: State, o: nat)
    requires Inv(s) && LiveHandles(s, o) > 0
    ensures o < |s.objs| && s.objs[o].phase == Intact && s.objs[o].strong >= LiveHandles(s, o)
  {
    assert o >= |s.objs| ==> Unborn(s, o);
    assert Conserved(s, o);
  }

  lemma HeldIsLive(s: State, t: nat, o: nat)
    requires t < |s.threads| && o in s.threads[t].strong
    ensures LiveHandles(s, o) > 0
  {
    TotalSet(s.threads, t, s.threads[t], Handle(o));
  }

  lemma BorrowableIsLive(s: State, o: nat)
    requires Borrowable(s, o)
    ensures LiveHandles(s, o) > 0
  {
    if u :| 0 <= u < |s.threads| && o in s.threads[u].strong {
      HeldIsLive(s, u, o);
    } else {
      var p :| 0 <= p < |s.objs| && s.objs[p].phase == Intact && o in s.objs[p].kids;
      FieldRefsSet(s.objs, p, s.objs[p], o);
    }
  }

  /** A buffered decrement proves the object at that address alive. */
  lemma BufferedMeansIntact(s: State, t: nat, o: nat)
    requires Inv(s) && t < |s.threads| && o < |s.objs| && s.objs[o].phase != Freed
    requires s.objs[o].addr in s.threads[t].buf.entries
    ensures s.objs[o].phase == Intact && s.objs[o].strong > 0
  {
    assert Conserved(s, o) && ThreadOk(s, s.threads[t]);
    assert Typed(s, Pending(s.objs[o].addr, s.threads[t].buf.entries[s.objs[o].addr]));
    TotalSet(s.threads, t, s.threads[t], Owed(s.objs[o].addr));
  }

  lemma WeakMeansAllocated(s: State, t: nat, o: nat)
    requires Inv(s) && t < |s.threads| && o in s.threads[t].weak
    ensures o < |s.objs| && s.objs[o].phase != Freed && s.objs[o].weak > 0
  {
    TotalSet(s.threads, t, s.threads[t], WeakHandle(o));
    assert o >= |s.objs| ==> Unborn(s, o);
    assert Conserved(s, o);
  }

  // ---------------------------------------------------------------- frames of the invariant

  lemma {:induction false} OwingMember(todo: seq<Pending>, p: Pending)
    requires p in todo
    ensures Owing(todo, p.addr) >= p.entry.count
  {
    if todo[0] != p {
      assert p in todo[1..];
      OwingMember(todo[1..], p);
    }
  }

  /** Every decrement still owed in `s` is still well typed in `s'`. */
  ghost predicate TypesKept(s: State, s': State) {
    forall p :: Typed(s, p) && Total(s.threads, Owed(p.addr)) > 0 ==> Typed(s', p)
  }

  /** Weak handles that are lent out stay where they are. */
  ghost predicate LoansKept(s: State, s': State) {
    && |s'.threads| == |s.threads|
    && forall l, o :: 0 <= l < |s.threads| && o in s.threads[l].weak && Lent(s, l, o) ==> o in s'.threads[l].weak
  }

  lemma {:induction false} StackKept(s: State, s': State, st: Stack)
    requires StackOk(s, st)
    requires forall p :: Typed(s, p) && StackTokens(st, Owed(p.addr)) > 0 ==> Typed(s', p)
    ensures StackOk(s', st)
  {
    if st.Push? {
      if st.top.Apply? {
        forall p | p in st.top.todo ensures Typed(s', p) {
          OwingMember(st.top.todo, p);
        }
      }
      StackKept(s, s', st.below);
    }
  }

  /** Threads that take no part in a step stay well formed. */
  lemma OthersKept(s: State, s': State, t: nat)
    requires Inv(s) && TypesKept(s, s') && LoansKept(s, s') && t < |s.threads|
    ensures ThreadOk(s', s.threads[t])
  {
    var th := s.threads[t];
    TotalsSet(s.threads, t, th);
    assert ThreadOk(s, th);
    forall a | a in th.buf.entries ensures Typed(s', Pending(a, th.buf.entries[a])) {
      assert Typed(s, Pending(a, th.buf.entries[a]));
      assert Tokens(th, Owed(a)) > 0;
    }
    forall p | Typed(s, p) && StackTokens(th.stack, Owed(p.addr)) > 0 ensures Typed(s', p) {
      assert Tokens(th, Owed(p.addr)) > 0;
    }
    StackKept(s, s', th.stack);
    if th.stack.Push? && th.stack.top.Upgrade? {
      assert Lent(s, th.stack.top.lender, th.stack.top.obj);
    }
  }

  /** Thread `t` still has the weak handles it has lent to an upgrade. */
  ghost predicate KeepsLoans(s: State, t: nat, weak: multiset<nat>)
    requires t < |s.threads|
  {
    forall w :: w in s.threads[t].weak && Lent(s, t, w) ==> w in weak
  }

  /** `s'` differs from `s` in the counters and phase of object `o` and in thread `t`. */
  ghost predicate OneChange(s: State, s': State, o: nat, x: Obj, t: nat, th: Thread) {
    && o < |s.objs| && t < |s.threads|
    && s' == SetBoth(s, o, x, t, th)
    && x.addr == s.objs[o].addr && x.ty == s.objs[o].ty && x.kids == s.objs[o].kids
    && x.phase != Freed && s.objs[o].phase != Freed
    && KeepsLoans(s, t, th.weak)
  }

  /** The claims of thread `t` and of the data of object `o`. */
  function Local(th: Thread, x: Obj, i: nat, a: Addr): Claims {
    Claims(Tokens(th, Handle(i)) + Refs(x, i), Tokens(th, Owed(a)), Tokens(th, WeakHandle(i)),
           Tokens(th, ToDrop(i)), Tokens(th, Share(i)), Tokens(th, ToFree(i)))
  }

  function Plus(c: Claims, d: Claims, e: Claims): Claims {
    Claims(c.handles + d.handles - e.handles, c.owed + d.owed - e.owed, c.weak + d.weak - e.weak,
           c.toDrop + d.toDrop - e.toDrop, c.share + d.share - e.share, c.toFree + d.toFree - e.toFree)
  }

  lemma ClaimsAfter(s: State, s': State, o: nat, x: Obj, t: nat, th: Thread, i: nat, a: Addr)
    requires o < |s.objs| && t < |s.threads| && s'.objs == s.objs[o := x] && s'.threads == s.threads[t := th]
    ensures ClaimsOn(s', i, a) == Plus(ClaimsOn(s, i, a), Local(th, x, i, a), Local(s.threads[t], s.objs[o], i, a))
  {
    TotalSet(s.threads, t, th, Handle(i));
    TotalSet(s.threads, t, th, Owed(a));
    TotalSet(s.threads, t, th, WeakHandle(i));
    TotalSet(s.threads, t, th, ToDrop(i));
    TotalSet(s.threads, t, th, Share(i));
    TotalSet(s.threads, t, th, ToFree(i));
    FieldRefsSet(s.objs, o, x, i);
  }

  /** The frame of most steps. What is left to show is that the acting thread is well
      formed, that it moves no claim on any other object, and that object `o` is in
      balance again. */
  lemma OneChangeKeeps(s: State, s': State, o: nat, x: Obj, t: nat, th: Thread)
    requires Inv(s) && OneChange(s, s', o, x, t, th)
    requires ThreadOk(s', th)
    requires forall i: nat, a: Addr :: i != o && a != x.addr ==>
      Local(th, x, i, a) == Local(s.threads[t], s.objs[o], i, a)
    requires Balanced(x,
                      Plus(ClaimsOn(s, o, x.addr), Local(th, x, o, x.addr), Local(s.threads[t], s.objs[o], o, x.addr)))
    ensures Inv(s')
  {
    forall i | 0 <= i < |s.objs| ensures Conserved(s', i) {
      assert Conserved(s, i) && Conserved(s, o);
      if i == o {
        ClaimsAfter(s, s', o, x, t, th, o, x.addr);
      } else {
        OtherConserved(s, s', o, x, t, th, i);
      }
    }
    forall i | i >= |s.objs| ensures Unborn(s', i) {
      assert Unborn(s, i);
      OtherUnborn(s, s', o, x, t, th, i);
    }
    forall a | a !in s.mem ensures Total(s'.threads, Owed(a)) == 0 {
      assert Conserved(s, o);
      ClaimsAfter(s, s', o, x, t, th, o + 1, a);
    }
    FrameRest(s, s', o, x, t, th);
  }

  lemma OtherConserved(s: State, s': State, o: nat, x: Obj, t: nat, th: Thread, i: nat)
    requires OneChange(s, s', o, x, t, th)
    requires forall i: nat, a: Addr :: i != o && a != x.addr ==>
      Local(th, x, i, a) == Local(s.threads[t], s.objs[o], i, a)
    requires i < |s.objs| && i != o && Conserved(s, i) && Conserved(s, o)
    ensures Conserved(s', i)
  {
    var a := if s.objs[i].addr == x.addr then x.addr + 1 else s.objs[i].addr;
    ClaimsAfter(s, s', o, x, t, th, i, a);
    assert Local(th, x, i, a) == Local(s.threads[t], s.objs[o], i, a);
    assert ClaimsOn(s', i, a) == ClaimsOn(s, i, a);
  }

  lemma OtherUnborn(s: State, s': State, o: nat, x: Obj, t: nat, th: Thread, i: nat)
    requires OneChange(s, s', o, x, t, th)
    requires forall i: nat, a: Addr :: i != o && a != x.addr ==>
      Local(th, x, i, a) == Local(s.threads[t], s.objs[o], i, a)
    requires i != o && Unborn(s, i)
    ensures Unborn(s', i)
  {
    ClaimsAfter(s, s', o, x, t, th, i, x.addr + 1);
    assert Local(th, x, i, x.addr + 1) == Local(s.threads[t], s.objs[o], i, x.addr + 1);
    assert ClaimsOn(s', i, x.addr + 1) == ClaimsOn(s, i, x.addr + 1);
  }

  lemma FrameRest(s: State, s': State, o: nat, x: Obj, t: nat, th: Thread)
    requires Inv(s) && OneChange(s, s', o, x, t, th)
    requires ThreadOk(s', th)
    ensures forall a :: a in s'.mem ==>
      s'.mem[a] < |s'.objs| && s'.objs[s'.mem[a]].addr == a && s'.objs[s'.mem[a]].phase != Freed
    ensures forall u :: 0 <= u < |s'.threads| ==> ThreadOk(s', s'.threads[u])
    ensures forall i, k :: 0 <= i < |s'.objs| && k in s'.objs[i].kids ==> k < i
  {
    assert TypesKept(s, s');
    forall u | 0 <= u < |s'.threads| ensures ThreadOk(s', s'.threads[u]) {
      if u != t { OthersKept(s, s', u); }
    }
    forall i, k | 0 <= i < |s'.objs| && k in s'.objs[i].kids ensures k < i {
      assert k in s.objs[i].kids;
    }
  }

  // ---------------------------------------------------------------- one lemma per kind of step

  lemma BalanceOf(s: State, o: nat)
    requires Inv(s) && o < |s.objs| && s.objs[o].phase != Freed
    ensures s.objs[o].addr in s.mem && s.mem[s.objs[o].addr] == o
    ensures Balanced(s.objs[o], ClaimsOn(s, o, s.objs[o].addr))
  {
    assert Conserved(s, o);
  }

  lemma ThreadOf(s: State, t: nat)
    requires Inv(s) && t < |s.threads|
    ensures ThreadOk(s, s.threads[t])
  {
  }

  /** Whether a decrement is well typed survives every change of counters and phases. */
  lemma ThreadKept(s: State, s': State, o: nat, x: Obj, t: nat, th: Thread)
    requires OneChange(s, s', o, x, t, th)
    requires BufferOk(s, th)
    requires StackOk(s, th.stack)
    requires th.stack.Push? ==> !th.stack.top.Upgrade?
    ensures ThreadOk(s', th)
  {
    assert forall p :: Typed(s, p) ==> Typed(s', p);
    StackKept(s, s', th.stack);
  }

  /** What is left to show of a step of a thread that is not in an upgrade afterwards. */
  lemma FinishStep(s: State, s': State, o: nat, x: Obj, t: nat, th: Thread)
    requires Inv(s) && OneChange(s, s', o, x, t, th)
    requires BufferOk(s, th) && StackOk(s, th.stack) && (th.stack.Push? ==> !th.stack.top.Upgrade?)
    requires forall i: nat, a: Addr :: i != o && a != x.addr ==>
      Local(th, x, i, a) == Local(s.threads[t], s.objs[o], i, a)
    requires Balanced(x,
                      Plus(ClaimsOn(s, o, x.addr), Local(th, x, o, x.addr), Local(s.threads[t], s.objs[o], o, x.addr)))
    ensures Inv(s')
  {
    ThreadKept(s, s', o, x, t, th);
    OneChangeKeeps(s, s', o, x, t, th);
  }

  ghost predicate BufferOk(s: State, th: Thread) {
    && (forall a :: a in th.buf.entries ==> Typed(s, Pending(a, th.buf.entries[a])))
    && Bounded(th.buf)
    && (!th.tls ==> th.buf == EMPTY)
  }

  lemma ConsumedOk(s: State, th: Thread, o: nat, x: Obj, th': Thread)
    requires BufferOk(s, th) && th.stack == Empty && x.addr in th.buf.entries
    requires th' == th.(strong := th.strong + multiset{o}, buf := Consumed(th.buf, x.addr))
    ensures BufferOk(s, th')
    ensures forall i: nat, a: Addr :: i != o && a != x.addr ==> Local(th', x, i, a) == Local(th, x, i, a)
    ensures var l := Local(th, x, o, x.addr);
      Local(th', x, o, x.addr) == l.(handles := l.handles + 1, owed := l.owed - 1)
  {
    ConsumedBounded(th.buf, x.addr);
    forall a | a in th'.buf.entries ensures Typed(s, Pending(a, th'.buf.entries[a])) {
      assert Typed(s, Pending(a, th.buf.entries[a]));
    }
  }

  /** A new handle that takes over a buffered decrement. */
  lemma ConsumeStep(s: State, t: nat, o: nat)
    requires Inv(s) && t < |s.threads| && s.threads[t].stack == Empty
    requires o < |s.objs| && s.objs[o].phase != Freed && s.objs[o].addr in s.threads[t].buf.entries
    ensures var th := s.threads[t];
      Inv(SetThread(s, t, th.(strong := th.strong + multiset{o}, buf := Consumed(th.buf, s.objs[o].addr))))
  {
    var th, x := s.threads[t], s.objs[o];
    var th' := th.(strong := th.strong + multiset{o}, buf := Consumed(th.buf, x.addr));
    var s' := SetThread(s, t, th');
    assert s.objs[o := x] == s.objs;
    ThreadOf(s, t);
    BalanceOf(s, o);
    ConsumedOk(s, th, o, x, th');
    FinishStep(s, s', o, x, t, th');
  }

  lemma CountedOnce(th: Thread, th': Thread, o: nat, x: Obj, x': Obj)
    requires th' == th.(stack := th'.stack, strong := th.strong + multiset{o})
    requires if th.stack.Push? then th.stack.top.Upgrade? && th'.stack == th.stack.below else th'.stack == Empty
    requires x' == x.(strong := x.strong + 1)
    ensures forall i: nat, a: Addr :: i != o && a != x.addr ==> Local(th', x', i, a) == Local(th, x, i, a)
    ensures var l := Local(th, x, o, x.addr); Local(th', x', o, x.addr) == l.(handles := l.handles + 1)
  {
  }

  /** A new strong handle counted on the shared counter. */
  lemma CountStep(s: State, t: nat, o: nat, th': Thread)
    requires Inv(s) && t < |s.threads| && o < |s.objs|
    requires s.objs[o].phase == Intact && s.objs[o].strong > 0
    requires th' == s.threads[t].(stack := th'.stack, strong := s.threads[t].strong + multiset{o})
    requires var st := s.threads[t].stack;
      if st.Push? then st.top.Upgrade? && th'.stack == st.below else th'.stack == Empty
    ensures Inv(SetBoth(s, o, s.objs[o].(strong := s.objs[o].strong + 1), t, th'))
  {
    var x := s.objs[o].(strong := s.objs[o].strong + 1);
    var s' := SetBoth(s, o, x, t, th');
    ThreadOf(s, t);
    BalanceOf(s, o);
    CountedOnce(s.threads[t], th', o, s.objs[o], x);
    FinishStep(s, s', o, x, t, th');
  }

  /** The thread after dropping a handle owes one decrement more, buffered or under way. */
  lemma DroppedTokens(th: Thread, x: Obj, order: seq<Addr>)
    requires FlushOrder(th, x, order)
    ensures forall k :: Tokens(DropHandle(th, x, order), k) == Tokens(th, k) + (if k == Owed(x.addr) then 1 else 0)
  {
    var b := Counted(th.buf, x.addr, x.ty);
    if !th.tls {
      assert forall a :: Owing([Pending(x.addr, Entry(1, x.ty))], a) == if a == x.addr then 1 else 0;
    } else if MustFlush(b) {
      DrainKeepsAmounts(b.entries, order);
      forall k ensures Tokens(DropHandle(th, x, order), k) == Tokens(th, k) + (if k == Owed(x.addr) then 1 else 0) {
        if k.Owed? { assert Owing(Drained(b.entries, order), k.a) == Amount(b.entries, k.a); }
      }
    }
  }

  lemma DroppedLocal(was: Thread, th: Thread, th': Thread, o: nat, x: Obj)
    requires forall k :: Tokens(th, k) == Tokens(was, k) - (if k == Handle(o) then 1 else 0)
    requires forall k :: Tokens(th', k) == Tokens(th, k) + (if k == Owed(x.addr) then 1 else 0)
    ensures forall i: nat, a: Addr :: i != o && a != x.addr ==> Local(th', x, i, a) == Local(was, x, i, a)
    ensures var l := Local(was, x, o, x.addr);
      Local(th', x, o, x.addr) == l.(handles := l.handles - 1, owed := l.owed + 1)
  {
  }

  lemma DroppedOk(s: State, th: Thread, o: nat, order: seq<Addr>)
    requires BufferOk(s, th) && StackOk(s, th.stack) && (th.stack.Push? ==> !th.stack.top.Upgrade?)
    requires o < |s.objs| && s.objs[o].addr in s.mem && s.mem[s.objs[o].addr] == o
    requires FlushOrder(th, s.objs[o], order)
    ensures var th' := DropHandle(th, s.objs[o], order);
      && BufferOk(s, th') && StackOk(s, th'.stack) && (th'.stack.Push? ==> !th'.stack.top.Upgrade?)
  {
    var x := s.objs[o];
    var b := Counted(th.buf, x.addr, x.ty);
    CountedBounded(th.buf, x.addr, x.ty);
    forall a | a in b.entries ensures Typed(s, Pending(a, b.entries[a])) {
      if a in th.buf.entries { assert Typed(s, Pending(a, th.buf.entries[a])); }
    }
    if th.tls && MustFlush(b) {
      DrainedEntries(b.entries, order);
    }
  }

  /** Dropping one strong handle, which `th` has already let go of. */
  lemma DropStep(s: State, t: nat, th: Thread, o: nat, order: seq<Addr>)
    requires Inv(s) && t < |s.threads| && o < |s.objs| && s.objs[o].phase != Freed
    requires BufferOk(s, th) && StackOk(s, th.stack) && (th.stack.Push? ==> !th.stack.top.Upgrade?)
    requires FlushOrder(th, s.objs[o], order) && th.weak == s.threads[t].weak
    requires forall k :: Tokens(th, k) == Tokens(s.threads[t], k) - (if k == Handle(o) then 1 else 0)
    ensures Inv(SetThread(s, t, DropHandle(th, s.objs[o], order)))
  {
    var x := s.objs[o];
    var th' := DropHandle(th, x, order);
    var s' := SetThread(s, t, th');
    assert s.objs[o := x] == s.objs;
    BalanceOf(s, o);
    DroppedTokens(th, x, order);
    DroppedOk(s, th, o, order);
    DroppedLocal(s.threads[t], th, th', o, x);
    FinishStep(s, s', o, x, t, th');
  }

  /** The claims a thread has once it has given up one weak count of `o`. */
  function WeakGone(l: Claims, share: bool, last: bool): Claims {
    var l' := if last then l.(toFree := l.toFree + 1) else l;
    if share then l'.(share := l.share - 1) else l'.(weak := l.weak - 1)
  }

  /** The arithmetic of giving up one weak count. */
  lemma WeakBalance(x: Obj, c: Claims, share: bool)
    requires x.phase != Freed && Balanced(x, c) && c.weak >= 0 && c.toDrop >= 0 && c.share >= 0
    requires if share then c.share > 0 else c.weak > 0
    ensures x.weak > 0 && Balanced(x.(weak := x.weak - 1), WeakGone(c, share, x.weak == 1))
  {
  }

  ghost predicate WeakMove(was: Thread, th: Thread, o: nat, x: Obj, share: bool) {
    && (forall i: nat, a: Addr :: i != o && a != x.addr ==> Local(th, x, i, a) == Local(was, x, i, a))
    && Local(th, x, o, x.addr) == WeakGone(Local(was, x, o, x.addr), share, false)
  }

  lemma WeakMoveLast(was: Thread, th: Thread, o: nat, x: Obj, share: bool)
    requires WeakMove(was, th, o, x, share) && x.weak > 0
    ensures var th', x' := AfterWeak(th, o, x), x.(weak := x.weak - 1);
      && (forall i: nat, a: Addr :: i != o && a != x.addr ==> Local(th', x', i, a) == Local(was, x, i, a))
      && Local(th', x', o, x.addr) == WeakGone(Local(was, x, o, x.addr), share, x.weak == 1)
  {
    var th', x' := AfterWeak(th, o, x), x.(weak := x.weak - 1);
    forall i: nat, a: Addr | i != o && a != x.addr ensures Local(th', x', i, a) == Local(was, x, i, a) {
      assert Local(th, x, i, a) == Local(was, x, i, a);
    }
  }

  ghost predicate Steady(s: State, th: Thread) {
    BufferOk(s, th) && StackOk(s, th.stack) && (th.stack.Push? ==> !th.stack.top.Upgrade?)
  }

  lemma WeakSet(s: State, t: nat, th: Thread, o: nat, share: bool)
    requires Inv(s) && t < |s.threads| && o < |s.objs| && s.objs[o].phase != Freed && s.objs[o].weak > 0
    requires var x := s.objs[o]; Balanced(x.(weak := x.weak - 1), WeakGone(ClaimsOn(s, o, x.addr), share, x.weak == 1))
    requires WeakMove(s.threads[t], th, o, s.objs[o], share)
    requires Steady(s, AfterWeak(th, o, s.objs[o]))
    requires KeepsLoans(s, t, th.weak)
    ensures Inv(SetBoth(s, o, s.objs[o].(weak := s.objs[o].weak - 1), t, AfterWeak(th, o, s.objs[o])))
  {
    var x := s.objs[o];
    WeakMoveLast(s.threads[t], th, o, x, share);
    var x', th' := x.(weak := x.weak - 1), AfterWeak(th, o, x);
    PlusWeakGone(ClaimsOn(s, o, x.addr), Local(th', x', o, x.addr), Local(s.threads[t], x, o, x.addr),
                 share, x.weak == 1);
    assert th'.weak == th.weak && x'.addr == x.addr;
    FinishStep(s, SetBoth(s, o, x', t, th'), o, x', t, th');
  }

  lemma PlusWeakGone(c: Claims, after: Claims, before: Claims, share: bool, last: bool)
    requires after == WeakGone(before, share, last)
    ensures Plus(c, after, before) == WeakGone(c, share, last)
  {
  }

  lemma WeakNumbers(s: State, t: nat, o: nat, share: bool)
    requires Inv(s) && t < |s.threads| && o < |s.objs| && s.objs[o].phase != Freed
    requires Tokens(s.threads[t], if share then Share(o) else WeakHandle(o)) > 0
    ensures var x := s.objs[o];
      x.weak > 0 && Balanced(x.(weak := x.weak - 1), WeakGone(ClaimsOn(s, o, x.addr), share, x.weak == 1))
  {
    BalanceOf(s, o);
    TotalSet(s.threads, t, s.threads[t], if share then Share(o) else WeakHandle(o));
    WeakBalance(s.objs[o], ClaimsOn(s, o, s.objs[o].addr), share);
  }

  /** Giving up one weak count: a weak handle's own, or the one the strong side shared. */
  lemma WeakStep(s: State, t: nat, th: Thread, o: nat, share: bool)
    requires Inv(s) && t < |s.threads| && o < |s.objs| && s.objs[o].phase != Freed
    requires Steady(s, th)
    requires WeakMove(s.threads[t], th, o, s.objs[o], share)
    requires Tokens(s.threads[t], if share then Share(o) else WeakHandle(o)) > 0
    requires KeepsLoans(s, t, th.weak)
    ensures WeakRelease(s, t, th, o).Next? && Inv(WeakRelease(s, t, th, o).s)
  {
    WeakNumbers(s, t, o, share);
    SteadyAfterWeak(s, th, o, s.objs[o]);
    assert WeakRelease(s, t, th, o) ==
      Next(SetBoth(s, o, s.objs[o].(weak := s.objs[o].weak - 1), t, AfterWeak(th, o, s.objs[o])));
    WeakSet(s, t, th, o, share);
  }

  lemma SteadyAfterWeak(s: State, th: Thread, o: nat, x: Obj)
    requires Steady(s, th)
    ensures Steady(s, AfterWeak(th, o, x))
  {
  }

  /** One more weak handle. */
  lemma DowngradeStep(s: State, t: nat, o: nat)
    requires Inv(s) && t < |s.threads| && s.threads[t].stack == Empty && o < |s.objs| && s.objs[o].phase == Intact
    ensures Inv(SetBoth(s, o, s.objs[o].(weak := s.objs[o].weak + 1), t,
                        s.threads[t].(weak := s.threads[t].weak + multiset{o})))
  {
    var x := s.objs[o].(weak := s.objs[o].weak + 1);
    var th := s.threads[t].(weak := s.threads[t].weak + multiset{o});
    var s' := SetBoth(s, o, x, t, th);
    ThreadOf(s, t);
    BalanceOf(s, o);
    FinishStep(s, s', o, x, t, th);
  }

  // -------------------------------------------------- steps that move no claim

  /** A state with the same objects and the same claims in total. */
  lemma SameClaims(s: State, s': State)
    requires Inv(s) && s'.objs == s.objs && s'.mem == s.mem
    requires forall k :: Total(s'.threads, k) == Total(s.threads, k)
    requires forall u :: 0 <= u < |s'.threads| ==> ThreadOk(s', s'.threads[u])
    ensures Inv(s')
  {
    forall i | 0 <= i < |s.objs| ensures Conserved(s', i) { assert Conserved(s, i); }
    forall i | i >= |s.objs| ensures Unborn(s', i) { assert Unborn(s, i); }
  }

  lemma NeutralStep(s: State, t: nat, th: Thread)
    requires Inv(s) && t < |s.threads|
    requires forall k :: Tokens(th, k) == Tokens(s.threads[t], k)
    requires th.weak == s.threads[t].weak
    requires ThreadOk(SetThread(s, t, th), th)
    ensures Inv(SetThread(s, t, th))
  {
    var s' := SetThread(s, t, th);
    TotalsSet(s.threads, t, th);
    forall u | 0 <= u < |s'.threads| ensures ThreadOk(s', s'.threads[u]) {
      if u != t { OthersKept(s, s', u); }
    }
    SameClaims(s, s');
  }

  /** Well-formedness of a thread that is not in an upgrade looks at objects and memory only. */
  lemma ThreadStays(s: State, s': State, th: Thread)
    requires s'.objs == s.objs && s'.mem == s.mem
    requires BufferOk(s, th) && StackOk(s, th.stack) && (th.stack.Push? ==> !th.stack.top.Upgrade?)
    ensures ThreadOk(s', th)
  {
    assert forall p :: Typed(s, p) ==> Typed(s', p);
    StackKept(s, s', th.stack);
  }

  lemma ExitStep(s: State, t: nat, order: seq<Addr>)
    requires Inv(s) && Enabled(s, t, Exit(order))
    ensures Inv(Do(s, t, Exit(order)).s)
  {
    var th := s.threads[t];
    ThreadOf(s, t);
    DrainKeepsAmounts(th.buf.entries, order);
    DrainedEntries(th.buf.entries, order);
    CountedBounded(th.buf, 0, 0);
    var th' := th.(tls := false, buf := EMPTY, stack := Push(Apply(Drained(th.buf.entries, order)), th.stack));
    ThreadStays(s, SetThread(s, t, th'), th');
    NeutralStep(s, t, th');
  }

  lemma SentTotals(s: State, t: nat, act: Action)
    requires Enabled(s, t, act) && (act.SendStrong? || act.SendWeak?)
    ensures forall k :: Total(Do(s, t, act).s.threads, k) == Total(s.threads, k)
  {
    var s' := Do(s, t, act).s;
    var th, th' := s'.threads[t], s'.threads[act.to];
    forall k ensures Total(s'.threads, k) == Total(s.threads, k) {
      TotalSet(s.threads, t, th, k);
      TotalSet(s.threads[t := th], act.to, th', k);
      SentTokens(s.threads[t], s.threads[act.to], act.o, act.SendStrong?, k);
    }
  }

  lemma SentTokens(a: Thread, b: Thread, o: nat, strong: bool, k: Token)
    requires if strong then o in a.strong else o in a.weak
    ensures if strong then
              Tokens(a.(strong := a.strong - multiset{o}), k) + Tokens(b.(strong := b.strong + multiset{o}), k) ==
                Tokens(a, k) + Tokens(b, k)
            else
              Tokens(a.(weak := a.weak - multiset{o}), k) + Tokens(b.(weak := b.weak + multiset{o}), k) ==
                Tokens(a, k) + Tokens(b, k)
  {
  }

  lemma SentLoans(s: State, t: nat, act: Action)
    requires Enabled(s, t, act) && (act.SendStrong? || act.SendWeak?)
    ensures LoansKept(s, Do(s, t, act).s)
  {
    var s' := Do(s, t, act).s;
    forall l, o | 0 <= l < |s.threads| && o in s.threads[l].weak && Lent(s, l, o) ensures o in s'.threads[l].weak {
    }
  }

  lemma SentThreads(s: State, t: nat, act: Action, u: nat)
    requires Inv(s) && Enabled(s, t, act) && (act.SendStrong? || act.SendWeak?) && u < |s.threads|
    ensures ThreadOk(Do(s, t, act).s, Do(s, t, act).s.threads[u])
  {
    var s' := Do(s, t, act).s;
    SentLoans(s, t, act);
    OthersKept(s, s', u);
    SentSame(s, t, act, u);
    SameWork(s', s.threads[u], s'.threads[u]);
  }

  lemma SentSame(s: State, t: nat, act: Action, u: nat)
    requires Enabled(s, t, act) && (act.SendStrong? || act.SendWeak?) && u < |s.threads|
    ensures var th, th' := s.threads[u], Do(s, t, act).s.threads[u];
      th'.stack == th.stack && th'.buf == th.buf && th'.tls == th.tls
  {
  }

  /** Moving a handle from one thread to another. */
  lemma SendStep(s: State, t: nat, act: Action)
    requires Inv(s) && Enabled(s, t, act) && (act.SendStrong? || act.SendWeak?)
    ensures Inv(Do(s, t, act).s)
  {
    SentTotals(s, t, act);
    forall u | 0 <= u < |s.threads| ensures ThreadOk(Do(s, t, act).s, Do(s, t, act).s.threads[u]) {
      SentThreads(s, t, act, u);
    }
    SameClaims(s, Do(s, t, act).s);
  }

  lemma SameWork(s: State, th: Thread, th': Thread)
    requires ThreadOk(s, th) && th'.stack == th.stack && th'.buf == th.buf && th'.tls == th.tls
    ensures ThreadOk(s, th')
  {
  }

  // -------------------------------------------------- steps inside a drop

  lemma ApplyMoves(th: Thread, th': Thread, o: nat, x: Obj)
    requires th.stack.Push? && th.stack.top.Apply? && th.stack.top.todo != []
    requires th.stack.top.todo[0].addr == x.addr && x.strong >= th.stack.top.todo[0].entry.count
    requires th' == AfterApply(th, o, x)
    ensures forall i: nat, a: Addr :: i != o && a != x.addr ==>
      Local(th', AfterRelease(th, x), i, a) == Local(th, x, i, a)
    ensures var l, n := Local(th, x, o, x.addr), th.stack.top.todo[0].entry.count;
      Local(th', AfterRelease(th, x), o, x.addr) ==
        l.(owed := l.owed - n, toDrop := l.toDrop + (if x.strong == n then 1 else 0))
  {
    forall k ensures Tokens(th', k) == Tokens(th, k) - Applied(th, x, k) + Handed(th, o, x, k) {
      ApplyToken(th, th', o, x, k);
    }
    assert AfterRelease(th, x).kids == x.kids && AfterRelease(th, x).phase == x.phase;
  }

  function Applied(th: Thread, x: Obj, k: Token): nat
    requires th.stack.Push? && th.stack.top.Apply? && th.stack.top.todo != []
  {
    if k == Owed(x.addr) then th.stack.top.todo[0].entry.count else 0
  }

  function Handed(th: Thread, o: nat, x: Obj, k: Token): nat
    requires th.stack.Push? && th.stack.top.Apply? && th.stack.top.todo != []
  {
    if k == ToDrop(o) && x.strong == th.stack.top.todo[0].entry.count then 1 else 0
  }

  lemma ApplyToken(th: Thread, th': Thread, o: nat, x: Obj, k: Token)
    requires th.stack.Push? && th.stack.top.Apply? && th.stack.top.todo != [] && th.stack.top.todo[0].addr == x.addr
    requires th' == AfterApply(th, o, x)
    ensures Tokens(th', k) == Tokens(th, k) - Applied(th, x, k) + Handed(th, o, x, k)
  {
    var st := Push(Apply(th.stack.top.todo[1..]), th.stack.below);
    assert StackTokens(st, k) == StackTokens(th.stack, k) - Applied(th, x, k);
    assert StackTokens(th'.stack, k) == StackTokens(st, k) + Handed(th, o, x, k);
  }

  /** The invariant leaves a release only one place to go. */
  lemma ApplyTarget(s: State, t: nat)
    requires Inv(s) && t < |s.threads|
    requires var th := s.threads[t]; th.stack.Push? && th.stack.top.Apply? && th.stack.top.todo != []
    ensures var p := s.threads[t].stack.top.todo[0];
      && p.addr in s.mem && s.mem[p.addr] < |s.objs|
      && var x := s.objs[s.mem[p.addr]];
        x.phase == Intact && x.addr == p.addr && x.ty == p.entry.release && x.strong >= p.entry.count > 0
  {
    var th := s.threads[t];
    var p := th.stack.top.todo[0];
    assert ThreadOk(s, th) && p in th.stack.top.todo;
    TotalSet(s.threads, t, th, Owed(p.addr));
    BalanceOf(s, s.mem[p.addr]);
  }

  /** The first decrement of a drained list is applied to an object that is there, of the
      right type and with a large enough count; and the invariant is kept. */
  lemma ApplyStep(s: State, t: nat)
    requires Inv(s) && t < |s.threads|
    requires var th := s.threads[t]; th.stack.Push? && th.stack.top.Apply? && th.stack.top.todo != []
    ensures var th := s.threads[t];
      var p := th.stack.top.todo[0];
      && p.addr in s.mem && s.mem[p.addr] < |s.objs|
      && var o := s.mem[p.addr];
        var x := s.objs[o];
        && x.phase == Intact && x.addr == p.addr && x.ty == p.entry.release && x.strong >= p.entry.count > 0
        && Inv(SetBoth(s, o, AfterRelease(th, x), t, AfterApply(th, o, x)))
  {
    var th := s.threads[t];
    ApplyTarget(s, t);
    var o := s.mem[th.stack.top.todo[0].addr];
    var x := s.objs[o];
    ThreadOf(s, t);
    BalanceOf(s, o);
    TotalSet(s.threads, t, th, Owed(x.addr));
    ApplyMoves(th, AfterApply(th, o, x), o, x);
    FinishStep(s, SetBoth(s, o, AfterRelease(th, x), t, AfterApply(th, o, x)), o, AfterRelease(th, x), t,
               AfterApply(th, o, x));
  }

  lemma DoomedMoves(th: Thread, th': Thread, o: nat, x: Obj)
    requires th.stack.Push? && th.stack.top == Doomed(o) && x.phase == Intact
    requires th' == th.(stack := Push(Kids(o, x.kids), th.stack.below))
    ensures forall i: nat, a: Addr :: i != o && a != x.addr ==>
      Local(th', x.(phase := Dropped), i, a) == Local(th, x, i, a)
    ensures var l := Local(th, x, o, x.addr);
      Local(th', x.(phase := Dropped), o, x.addr) == l.(toDrop := l.toDrop - 1, share := l.share + 1)
  {
  }

  lemma DoomedStep(s: State, t: nat)
    requires Inv(s) && t < |s.threads| && s.threads[t].stack.Push? && s.threads[t].stack.top.Doomed?
    ensures var th := s.threads[t];
      var o := th.stack.top.obj;
      && o < |s.objs| && s.objs[o].phase == Intact
      && Inv(SetBoth(s, o, s.objs[o].(phase := Dropped), t,
                     th.(stack := Push(Kids(o, s.objs[o].kids), th.stack.below))))
  {
    var th := s.threads[t];
    var o := th.stack.top.obj;
    TotalSet(s.threads, t, th, ToDrop(o));
    assert o >= |s.objs| ==> Unborn(s, o);
    assert Conserved(s, o);
    var x := s.objs[o];
    var th' := th.(stack := Push(Kids(o, x.kids), th.stack.below));
    ThreadOf(s, t);
    DoomedMoves(th, th', o, x);
    FinishStep(s, SetBoth(s, o, x.(phase := Dropped), t, th'), o, x.(phase := Dropped), t, th');
  }

  /** Dropping one field of data that is going away. */
  lemma KidStep(s: State, t: nat, order: seq<Addr>)
    requires Inv(s) && t < |s.threads| && s.threads[t].stack.Push?
    requires s.threads[t].stack.top.Kids? && s.threads[t].stack.top.rest != []
    ensures var th := s.threads[t];
      var f := th.stack.top;
      var th' := th.(stack := Push(Kids(f.obj, f.rest[1..]), th.stack.below));
      && f.rest[0] < |s.objs|
      && (FlushOrder(th, s.objs[f.rest[0]], order) ==> Inv(SetThread(s, t, DropHandle(th', s.objs[f.rest[0]], order))))
  {
    var th := s.threads[t];
    var f := th.stack.top;
    var c := f.rest[0];
    assert f.rest == [c] + f.rest[1..];
    TotalSet(s.threads, t, th, Handle(c));
    HandleMeansIntact(s, c);
    ThreadOf(s, t);
    if FlushOrder(th, s.objs[c], order) {
      DropStep(s, t, th.(stack := Push(Kids(f.obj, f.rest[1..]), th.stack.below)), c, order);
    }
  }

  /** After the last field the strong side gives back its weak count. */
  lemma ShareStep(s: State, t: nat)
    requires Inv(s) && t < |s.threads| && s.threads[t].stack.Push?
    requires s.threads[t].stack.top.Kids? && s.threads[t].stack.top.rest == []
    ensures var th := s.threads[t];
      var r := th.(stack := th.stack.below);
      && th.stack.top.obj < |s.objs|
      && WeakRelease(s, t, r, th.stack.top.obj).Next? && Inv(WeakRelease(s, t, r, th.stack.top.obj).s)
  {
    var th := s.threads[t];
    var o := th.stack.top.obj;
    TotalSet(s.threads, t, th, Share(o));
    assert o >= |s.objs| ==> Unborn(s, o);
    assert Conserved(s, o);
    ThreadOf(s, t);
    ShareMoves(th, o, s.objs[o]);
    WeakStep(s, t, th.(stack := th.stack.below), o, true);
  }

  lemma ShareMoves(th: Thread, o: nat, x: Obj)
    requires th.stack.Push? && th.stack.top == Kids(o, [])
    ensures WeakMove(th, th.(stack := th.stack.below), o, x, true)
  {
  }

  /** Freeing: nobody has any claim left, so the address can be used again. */
  lemma DeallocStep(s: State, t: nat)
    requires Inv(s) && t < |s.threads| && s.threads[t].stack.Push? && s.threads[t].stack.top.Dealloc?
    ensures var th := s.threads[t];
      var o := th.stack.top.obj;
      && o < |s.objs| && s.objs[o].phase == Dropped
      && Inv(SetBoth(s, o, s.objs[o].(phase := Freed), t,
                     th.(stack := th.stack.below)).(mem := s.mem - {s.objs[o].addr}))
  {
    var th := s.threads[t];
    var o := th.stack.top.obj;
    TotalSet(s.threads, t, th, ToFree(o));
    assert o >= |s.objs| ==> Unborn(s, o);
    assert Conserved(s, o);
    FreedKeeps(s, t, o);
  }

  lemma FreedClaims(s: State, s': State, t: nat, o: nat, i: nat, a: Addr)
    requires t < |s.threads| && s.threads[t].stack.Push? && s.threads[t].stack.top == Dealloc(o)
    requires o < |s.objs| && s.objs[o].phase == Dropped
    requires s'.objs == s.objs[o := s.objs[o].(phase := Freed)]
    requires s'.threads == s.threads[t := s.threads[t].(stack := s.threads[t].stack.below)]
    ensures var c := ClaimsOn(s, i, a); ClaimsOn(s', i, a) == if i == o then c.(toFree := c.toFree - 1) else c
  {
    ClaimsAfter(s, s', o, s.objs[o].(phase := Freed), t, s.threads[t].(stack := s.threads[t].stack.below), i, a);
  }

  lemma FreedConserved(s: State, s': State, t: nat, o: nat, i: nat)
    requires t < |s.threads| && s.threads[t].stack.Push? && s.threads[t].stack.top == Dealloc(o)
    requires o < |s.objs| && s.objs[o].phase == Dropped && s.objs[o].weak == 0
    requires s'.objs == s.objs[o := s.objs[o].(phase := Freed)] && s'.mem == s.mem - {s.objs[o].addr}
    requires s'.threads == s.threads[t := s.threads[t].(stack := s.threads[t].stack.below)]
    requires i < |s.objs| && Conserved(s, i) && Conserved(s, o)
    ensures Conserved(s', i)
  {
    FreedClaims(s, s', t, o, i, s.objs[i].addr);
    if i == o { FreedSelf(s, s', o); } else { FreedOther(s, s', o, i); }
  }

  lemma FreedSelf(s: State, s': State, o: nat)
    requires o < |s.objs| && s.objs[o].phase == Dropped && s.objs[o].weak == 0 && Conserved(s, o)
    requires s'.objs == s.objs[o := s.objs[o].(phase := Freed)]
    requires var c := ClaimsOn(s, o, s.objs[o].addr); ClaimsOn(s', o, s.objs[o].addr) == c.(toFree := c.toFree - 1)
    ensures Conserved(s', o)
  {
    var c := ClaimsOn(s, o, s.objs[o].addr);
    assert c.toFree == 1 && c.share == c.toDrop == c.weak == c.handles == 0;
  }

  lemma FreedOther(s: State, s': State, o: nat, i: nat)
    requires o < |s.objs| && s.objs[o].phase != Freed && Conserved(s, o)
    requires s'.objs == s.objs[o := s.objs[o].(phase := Freed)] && s'.mem == s.mem - {s.objs[o].addr}
    requires i < |s.objs| && i != o && Conserved(s, i)
    requires ClaimsOn(s', i, s.objs[i].addr) == ClaimsOn(s, i, s.objs[i].addr)
    ensures Conserved(s', i)
  {
  }

  lemma FreedKeeps(s: State, t: nat, o: nat)
    requires Inv(s) && t < |s.threads| && s.threads[t].stack.Push? && s.threads[t].stack.top == Dealloc(o)
    requires o < |s.objs| && s.objs[o].phase == Dropped && s.objs[o].weak == 0
    ensures Inv(SetBoth(s, o, s.objs[o].(phase := Freed), t,
                        s.threads[t].(stack := s.threads[t].stack.below)).(mem := s.mem - {s.objs[o].addr}))
  {
    var th' := s.threads[t].(stack := s.threads[t].stack.below);
    var s' := SetBoth(s, o, s.objs[o].(phase := Freed), t, th').(mem := s.mem - {s.objs[o].addr});
    forall i | 0 <= i < |s.objs| ensures Conserved(s', i) {
      assert Conserved(s, i) && Conserved(s, o);
      FreedConserved(s, s', t, o, i);
    }
    forall i | i >= |s.objs| ensures Unborn(s', i) {
      assert Unborn(s, i);
      FreedClaims(s, s', t, o, i, 0);
    }
    forall a | a !in s'.mem ensures Total(s'.threads, Owed(a)) == 0 {
      assert Conserved(s, o);
      FreedClaims(s, s', t, o, o, a);
    }
    FreedFrame(s, s', t, o);
  }

  lemma FreedFrame(s: State, s': State, t: nat, o: nat)
    requires Inv(s) && t < |s.threads| && s.threads[t].stack.Push? && s.threads[t].stack.top == Dealloc(o)
    requires o < |s.objs| && s.objs[o].phase == Dropped
    requires s' == SetBoth(s, o, s.objs[o].(phase := Freed), t,
                           s.threads[t].(stack := s.threads[t].stack.below)).(mem := s.mem - {s.objs[o].addr})
    ensures forall u :: 0 <= u < |s'.threads| ==> ThreadOk(s', s'.threads[u])
    ensures forall i, k :: 0 <= i < |s'.objs| && k in s'.objs[i].kids ==> k < i
    ensures forall a :: a in s'.mem ==>
      s'.mem[a] < |s'.objs| && s'.objs[s'.mem[a]].addr == a && s'.objs[s'.mem[a]].phase != Freed
  {
    forall u | 0 <= u < |s'.threads| ensures ThreadOk(s', s'.threads[u]) {
      FreedThread(s, s', t, o, u);
    }
    FreedObjs(s, s', o);
  }

  lemma FreedThread(s: State, s': State, t: nat, o: nat, u: nat)
    requires Inv(s) && t < |s.threads| && s.threads[t].stack.Push? && s.threads[t].stack.top == Dealloc(o)
    requires u < |s.threads|
    requires o < |s.objs| && s'.objs == s.objs[o := s.objs[o].(phase := Freed)] && s'.mem == s.mem - {s.objs[o].addr}
    requires s'.threads == s.threads[t := s.threads[t].(stack := s.threads[t].stack.below)]
    ensures ThreadOk(s', s'.threads[u])
  {
    FreedTypes(s, s', o);
    OthersKept(s, s', u);
    if u == t {
      assert s.threads[t].stack == Push(Dealloc(o), s'.threads[t].stack);
      assert ThreadOk(s', s.threads[t]);
    }
  }

  lemma FreedTypes(s: State, s': State, o: nat)
    requires o < |s.objs| && s'.objs == s.objs[o := s.objs[o].(phase := Freed)] && s'.mem == s.mem - {s.objs[o].addr}
    requires |s'.threads| == |s.threads| && forall u :: 0 <= u < |s.threads| ==> s'.threads[u].weak == s.threads[u].weak
    ensures TypesKept(s, s') && LoansKept(s, s')
  {
    assert forall p :: Typed(s, p) ==> Typed(s', p);
  }

  lemma FreedObjs(s: State, s': State, o: nat)
    requires Inv(s) && o < |s.objs| && s'.objs == s.objs[o := s.objs[o].(phase := Freed)]
    requires s'.mem == s.mem - {s.objs[o].addr}
    ensures forall i, k :: 0 <= i < |s'.objs| && k in s'.objs[i].kids ==> k < i
    ensures forall a :: a in s'.mem ==>
      s'.mem[a] < |s'.objs| && s'.objs[s'.mem[a]].addr == a && s'.objs[s'.mem[a]].phase != Freed
  {
    forall i, k | 0 <= i < |s'.objs| && k in s'.objs[i].kids ensures k < i {
      assert k in s.objs[i].kids;
    }
  }

  // -------------------------------------------------- steps outside a drop

  /** Creating an object exchanges the handles that go into it for one to it. */
  function Exchanged(kids: seq<nat>, o: nat, k: Token): int {
    var got: int := if k == Handle(o) then 1 else 0;
    var gave: int := if k.Handle? then multiset(kids)[k.o] else 0;
    got - gave
  }

  lemma NewTokens(th: Thread, kids: seq<nat>, o: nat, th': Thread, k: Token)
    requires multiset(kids) <= th.strong && th'.stack == th.stack && th'.buf == th.buf && th'.weak == th.weak
    requires forall i: nat :: th'.strong[i] == th.strong[i] - multiset(kids)[i] + (if i == o then 1 else 0)
    ensures Tokens(th', k) == Tokens(th, k) + Exchanged(kids, o, k)
  {
  }

  lemma NewSums(s: State, s': State, t: nat, th': Thread, x: Obj, i: nat, a: Addr)
    requires t < |s.threads| && s'.threads == s.threads[t := th'] && s'.objs == s.objs + [x] && x.phase == Intact
    requires forall k :: Tokens(th', k) == Tokens(s.threads[t], k) + Exchanged(x.kids, |s.objs|, k)
    ensures ClaimsOn(s', i, a) ==
      if i == |s.objs| then ClaimsOn(s, i, a).(handles := ClaimsOn(s, i, a).handles + 1) else ClaimsOn(s, i, a)
  {
    forall k ensures Total(s'.threads, k) == Total(s.threads, k) + Tokens(th', k) - Tokens(s.threads[t], k) {
      TotalSet(s.threads, t, th', k);
    }
    FieldRefsAppend(s.objs, x, i);
  }

  lemma NewClaims(s: State, t: nat, addr: Addr, ty: nat, kids: seq<nat>, i: nat, a: Addr)
    requires Enabled(s, t, New(addr, ty, kids))
    ensures ClaimsOn(Do(s, t, New(addr, ty, kids)).s, i, a) ==
      if i == |s.objs| then ClaimsOn(s, i, a).(handles := ClaimsOn(s, i, a).handles + 1) else ClaimsOn(s, i, a)
  {
    var s' := Do(s, t, New(addr, ty, kids)).s;
    forall k {
      NewTokens(s.threads[t], kids, |s.objs|, s'.threads[t], k);
    }
    NewSums(s, s', t, s'.threads[t], Obj(addr, ty, kids, 1, 1, Intact), i, a);
  }

  lemma NewConserved(s: State, t: nat, addr: Addr, ty: nat, kids: seq<nat>, i: nat)
    requires Inv(s) && Enabled(s, t, New(addr, ty, kids)) && i <= |s.objs|
    ensures Conserved(Do(s, t, New(addr, ty, kids)).s, i)
  {
    if i == |s.objs| {
      NewClaims(s, t, addr, ty, kids, i, addr);
      assert Unborn(s, i);
    } else {
      NewClaims(s, t, addr, ty, kids, i, s.objs[i].addr);
      assert Conserved(s, i);
    }
  }

  lemma NewFrame(s: State, t: nat, addr: Addr, ty: nat, kids: seq<nat>, u: nat)
    requires Inv(s) && Enabled(s, t, New(addr, ty, kids)) && u < |s.threads|
    ensures ThreadOk(Do(s, t, New(addr, ty, kids)).s, Do(s, t, New(addr, ty, kids)).s.threads[u])
  {
    var s' := Do(s, t, New(addr, ty, kids)).s;
    assert TypesKept(s, s');
    OthersKept(s, s', u);
    SameWork(s', s.threads[u], s'.threads[u]);
  }

  /** Creating an object, possibly at an address used before. */
  lemma NewStep(s: State, t: nat, addr: Addr, ty: nat, kids: seq<nat>)
    requires Inv(s) && Enabled(s, t, New(addr, ty, kids))
    ensures Inv(Do(s, t, New(addr, ty, kids)).s)
  {
    var s' := Do(s, t, New(addr, ty, kids)).s;
    forall i | 0 <= i < |s'.objs| ensures Conserved(s', i) {
      NewConserved(s, t, addr, ty, kids, i);
    }
    forall i | i >= |s'.objs| ensures Unborn(s', i) {
      NewClaims(s, t, addr, ty, kids, i, 0);
      assert Unborn(s, i);
    }
    forall a | a !in s'.mem ensures Total(s'.threads, Owed(a)) == 0 {
      NewClaims(s, t, addr, ty, kids, 0, a);
    }
    forall u | 0 <= u < |s'.threads| ensures ThreadOk(s', s'.threads[u]) {
      NewFrame(s, t, addr, ty, kids, u);
    }
    forall i, k | 0 <= i < |s'.objs| && k in s'.objs[i].kids ensures k < i {
      if i == |s.objs| {
        HeldIsLive(s, t, k);
        HandleMeansIntact(s, k);
      } else {
        assert k in s.objs[i].kids;
      }
    }
  }

  lemma DropWeakStep(s: State, t: nat, o: nat)
    requires Inv(s) && Enabled(s, t, DropWeak(o))
    ensures Do(s, t, DropWeak(o)).Next? && Inv(Do(s, t, DropWeak(o)).s)
  {
    var th := s.threads[t];
    ThreadOf(s, t);
    WeakMeansAllocated(s, t, o);
    WeakHandleMoves(th, o, s.objs[o]);
    WeakStep(s, t, th.(weak := th.weak - multiset{o}), o, false);
  }

  lemma WeakHandleMoves(th: Thread, o: nat, x: Obj)
    requires o in th.weak
    ensures WeakMove(th, th.(weak := th.weak - multiset{o}), o, x, false)
  {
  }

  /** An upgrade frame that thread `t` may have: it goes through a weak handle that is there. */
  ghost predicate LoanOk(s: State, f: Frame) {
    f.Upgrade? && f.lender < |s.threads| && f.obj in s.threads[f.lender].weak && f.seen > 0
  }

  /** What is below an upgrade, or the empty stack before one. */
  function Below(st: Stack): Stack {
    if st.Push? then st.below else st
  }

  lemma BelowOk(s: State, t: nat)
    requires Inv(s) && t < |s.threads|
    ensures StackOk(s, Below(s.threads[t].stack)) && BufferOk(s, s.threads[t])
    ensures var below := Below(s.threads[t].stack);
      s.threads[t].stack.Push? && s.threads[t].stack.top.Upgrade? && below.Push? ==> !below.top.Upgrade?
  {
    ThreadOf(s, t);
  }

  /** Entering or leaving the loop of an upgrade moves no claim. */
  lemma SameStackTokens(th: Thread, st: Stack)
    requires th.stack.Push? ==> th.stack.top.Upgrade?
    requires st == Below(th.stack) || (st.Push? && st.top.Upgrade? && st.below == Below(th.stack))
    ensures forall k :: Tokens(th.(stack := st), k) == Tokens(th, k)
  {
  }

  /** Giving up an upgrade; below, entering its loop or trying again. */
  lemma UpgradeGivesUp(s: State, t: nat)
    requires Inv(s) && t < |s.threads| && s.threads[t].stack.Push? && s.threads[t].stack.top.Upgrade?
    ensures Inv(SetThread(s, t, s.threads[t].(stack := s.threads[t].stack.below)))
  {
    var th := s.threads[t].(stack := s.threads[t].stack.below);
    BelowOk(s, t);
    SameStackTokens(s.threads[t], th.stack);
    StackStays(s, SetThread(s, t, th), th.stack);
    NeutralStep(s, t, th);
  }

  lemma UpgradeRetries(s: State, t: nat, f: Frame)
    requires Inv(s) && t < |s.threads| && LoanOk(s, f)
    requires s.threads[t].stack.Push? ==> s.threads[t].stack.top.Upgrade?
    ensures Inv(SetThread(s, t, s.threads[t].(stack := Push(f, Below(s.threads[t].stack)))))
  {
    var th := s.threads[t].(stack := Push(f, Below(s.threads[t].stack)));
    BelowOk(s, t);
    SameStackTokens(s.threads[t], th.stack);
    StackStays(s, SetThread(s, t, th), th.stack.below);
    LoanStays(s, t, th, f);
    NeutralStep(s, t, th);
  }

  lemma LoanStays(s: State, t: nat, th: Thread, f: Frame)
    requires t < |s.threads| && th.weak == s.threads[t].weak && LoanOk(s, f)
    ensures LoanOk(SetThread(s, t, th), f)
  {
  }

  /** A stack is as good after a step that changes no object and frees nothing. */
  lemma {:induction false} StackStays(s: State, s': State, st: Stack)
    requires StackOk(s, st) && s'.objs == s.objs && s'.mem == s.mem
    ensures StackOk(s', st)
  {
    if st.Push? { StackStays(s, s', st.below); }
  }

  lemma BeginUpgradeStep(s: State, t: nat, o: nat, lender: nat)
    requires Inv(s) && Enabled(s, t, BeginUpgrade(o, lender))
    ensures Do(s, t, BeginUpgrade(o, lender)).Next? && Inv(Do(s, t, BeginUpgrade(o, lender)).s)
  {
    var th, x := s.threads[t], s.objs[o];
    WeakMeansAllocated(s, lender, o);
    if th.tls && x.addr in th.buf.entries {
      ConsumeStep(s, t, o);
    } else if x.strong > 0 {
      UpgradeRetries(s, t, Upgrade(o, lender, x.strong));
    }
  }

  ghost predicate Good(r: Outcome) {
    r.Next? && Inv(r.s)
  }

  lemma UpgradeTarget(s: State, t: nat)
    requires Inv(s) && t < |s.threads| && s.threads[t].stack.Push? && s.threads[t].stack.top.Upgrade?
    ensures var f := s.threads[t].stack.top;
      && f.lender < |s.threads| && f.obj in s.threads[f.lender].weak && f.seen > 0
      && f.obj < |s.objs| && s.objs[f.obj].phase != Freed
      && (s.objs[f.obj].strong > 0 ==> s.objs[f.obj].phase == Intact)
      && var below := s.threads[t].stack.below; below.Push? ==> !below.top.Upgrade?
  {
    ThreadOf(s, t);
    WeakMeansAllocated(s, s.threads[t].stack.top.lender, s.threads[t].stack.top.obj);
    BalanceOf(s, s.threads[t].stack.top.obj);
  }

  /** The compare-exchange succeeds. */
  lemma UpgradeWins(s: State, t: nat, order: seq<Addr>)
    requires Inv(s) && Enabled(s, t, Tick(order, false)) && s.threads[t].stack.top.Upgrade?
    requires s.threads[t].stack.top.obj < |s.objs|
    requires s.objs[s.threads[t].stack.top.obj].strong == s.threads[t].stack.top.seen
    ensures Good(DoTick(s, t, order, false))
  {
    var th := s.threads[t];
    var o := th.stack.top.obj;
    UpgradeTarget(s, t);
    var th' := th.(stack := th.stack.below, strong := th.strong + multiset{o});
    CountStep(s, t, o, th');
    assert DoTick(s, t, order, false) == Next(SetBoth(s, o, s.objs[o].(strong := s.objs[o].strong + 1), t, th'));
  }

  /** It fails: try again with the value seen, or give up on zero. */
  lemma UpgradeFails(s: State, t: nat, order: seq<Addr>, spurious: bool)
    requires Inv(s) && Enabled(s, t, Tick(order, spurious)) && s.threads[t].stack.top.Upgrade?
    requires s.threads[t].stack.top.obj < |s.objs|
    requires spurious || s.objs[s.threads[t].stack.top.obj].strong != s.threads[t].stack.top.seen
    ensures Good(DoTick(s, t, order, spurious))
  {
    var th := s.threads[t];
    var f := th.stack.top;
    UpgradeTarget(s, t);
    var n := s.objs[f.obj].strong;
    if n == 0 {
      UpgradeGivesUp(s, t);
    } else {
      UpgradeRetries(s, t, Upgrade(f.obj, f.lender, n));
    }
  }

  lemma PopStep(s: State, t: nat)
    requires Inv(s) && t < |s.threads| && s.threads[t].stack.Push? && s.threads[t].stack.top == Apply([])
    ensures Inv(SetThread(s, t, s.threads[t].(stack := s.threads[t].stack.below)))
  {
    var th' := s.threads[t].(stack := s.threads[t].stack.below);
    ThreadOf(s, t);
    ThreadStays(s, SetThread(s, t, th'), th');
    NeutralStep(s, t, th');
  }

  lemma NewGood(s: State, t: nat, addr: Addr, ty: nat, kids: seq<nat>)
    requires Inv(s) && Enabled(s, t, New(addr, ty, kids))
    ensures Good(Do(s, t, New(addr, ty, kids)))
  {
    NewStep(s, t, addr, ty, kids);
  }

  lemma CloneGood(s: State, t: nat, o: nat)
    requires Inv(s) && Enabled(s, t, Clone(o))
    ensures Good(Do(s, t, Clone(o)))
  {
    BorrowableIsLive(s, o);
    HandleMeansIntact(s, o);
    CloneOfIntact(s, t, o);
  }

  lemma CloneOfIntact(s: State, t: nat, o: nat)
    requires Inv(s) && t < |s.threads| && s.threads[t].stack == Empty
    requires o < |s.objs| && s.objs[o].phase == Intact && s.objs[o].strong > 0
    ensures Good(DoClone(s, t, o))
  {
    var th := s.threads[t];
    if th.tls && s.objs[o].addr in th.buf.entries {
      ConsumeStep(s, t, o);
    } else {
      CountStep(s, t, o, th.(strong := th.strong + multiset{o}));
    }
  }

  lemma DropGood(s: State, t: nat, o: nat, order: seq<Addr>)
    requires Inv(s) && Enabled(s, t, Drop(o, order))
    ensures Good(Do(s, t, Drop(o, order)))
  {
    HeldIsLive(s, t, o);
    HandleMeansIntact(s, o);
    ThreadOf(s, t);
    DropStep(s, t, s.threads[t].(strong := s.threads[t].strong - multiset{o}), o, order);
  }

  lemma DowngradeGood(s: State, t: nat, o: nat)
    requires Inv(s) && Enabled(s, t, Downgrade(o))
    ensures Good(Do(s, t, Downgrade(o)))
  {
    BorrowableIsLive(s, o);
    HandleMeansIntact(s, o);
    DowngradeOfIntact(s, t, o);
  }

  lemma DowngradeOfIntact(s: State, t: nat, o: nat)
    requires Inv(s) && t < |s.threads| && s.threads[t].stack == Empty && o < |s.objs| && s.objs[o].phase == Intact
    ensures Good(DoDowngrade(s, t, o))
  {
    DowngradeStep(s, t, o);
  }

  lemma MiscGood(s: State, t: nat, act: Action)
    requires Inv(s) && Enabled(s, t, act)
    requires act.SendStrong? || act.SendWeak? || act.Exit?
    ensures Good(Do(s, t, act))
  {
    if act.Exit? { ExitStep(s, t, act.order); } else { SendStep(s, t, act); }
  }

  lemma WeakGood(s: State, t: nat, act: Action)
    requires Inv(s) && Enabled(s, t, act) && (act.DropWeak? || act.BeginUpgrade?)
    ensures Good(Do(s, t, act))
  {
    if act.DropWeak? { DropWeakStep(s, t, act.o); } else { BeginUpgradeStep(s, t, act.o, act.lender); }
  }

  lemma ApplyGood(s: State, t: nat, order: seq<Addr>, spurious: bool)
    requires Inv(s) && Enabled(s, t, Tick(order, spurious)) && s.threads[t].stack.top.Apply?
    ensures Good(DoTick(s, t, order, spurious))
  {
    if s.threads[t].stack.top.todo == [] {
      PopStep(s, t);
    } else {
      ApplyStep(s, t);
    }
  }

  lemma KidsGood(s: State, t: nat, order: seq<Addr>, spurious: bool)
    requires Inv(s) && Enabled(s, t, Tick(order, spurious)) && s.threads[t].stack.top.Kids?
    ensures Good(DoTick(s, t, order, spurious))
  {
    var o := s.threads[t].stack.top.obj;
    TotalSet(s.threads, t, s.threads[t], Share(o));
    assert o >= |s.objs| ==> Unborn(s, o);
    if s.threads[t].stack.top.rest == [] { ShareStep(s, t); } else { KidStep(s, t, order); }
  }

  lemma OtherTickGood(s: State, t: nat, order: seq<Addr>, spurious: bool)
    requires Inv(s) && Enabled(s, t, Tick(order, spurious))
    requires s.threads[t].stack.top.Doomed? || s.threads[t].stack.top.Dealloc?
    ensures Good(DoTick(s, t, order, spurious))
  {
    if s.threads[t].stack.top.Doomed? { DoomedStep(s, t); } else { DeallocStep(s, t); }
  }

  lemma TickGood(s: State, t: nat, order: seq<Addr>, spurious: bool)
    requires Inv(s) && Enabled(s, t, Tick(order, spurious))
    ensures Good(DoTick(s, t, order, spurious))
  {
    match s.threads[t].stack.top
    case Apply(_) => ApplyGood(s, t, order, spurious);
    case Kids(_, _) => KidsGood(s, t, order, spurious);
    case Doomed(_) => OtherTickGood(s, t, order, spurious);
    case Dealloc(_) => OtherTickGood(s, t, order, spurious);
    case Upgrade(o, _, seen) =>
      UpgradeTarget(s, t);
      if s.objs[o].strong == seen && !spurious {
        UpgradeWins(s, t, order);
      } else {
        UpgradeFails(s, t, order, spurious);
      }
  }

  /** No step the language allows faults, and every step keeps the invariant. */
  lemma StepSafe(s: State, t: nat, act: Action)
    requires Inv(s) && Enabled(s, t, act)
    ensures Good(Do(s, t, act))
  {
    match act
    case New(addr, ty, kids) => NewGood(s, t, addr, ty, kids);
    case Clone(o) => CloneGood(s, t, o);
    case Drop(o, order) => DropGood(s, t, o, order);
    case Downgrade(o) => DowngradeGood(s, t, o);
    case DropWeak(_) => WeakGood(s, t, act);
    case BeginUpgrade(_, _) => WeakGood(s, t, act);
    case SendStrong(_, _) => MiscGood(s, t, act);
    case SendWeak(_, _) => MiscGood(s, t, act);
    case Exit(_) => MiscGood(s, t, act);
    case Tick(order, spurious) => TickGood(s, t, order, spurious);
  }

  lemma {:induction false} NoClaims(ts: seq<Thread>, k: Token)
    requires forall t :: 0 <= t < |ts| ==> Tokens(ts[t], k) == 0
    ensures Total(ts, k) == 0
  {
    if ts != [] {
      assert forall t :: 0 <= t < |ts[1..]| ==> ts[1..][t] == ts[t + 1];
      NoClaims(ts[1..], k);
    }
  }

  lemma InitInv(tls: seq<bool>)
    ensures Inv(Init(tls))
  {
    var s := Init(tls);
    forall k ensures Total(s.threads, k) == 0 {
      NoClaims(s.threads, k);
    }
    CountedBounded(EMPTY, 0, 0);
  }

  /** Main theorem: whatever any number of threads do, in whatever order, with whatever
      drain orders and spurious compare-exchange failures, nothing ever faults and the
      conservation laws hold. */
  lemma {:induction false} RunSafe(s: State, schedule: seq<(nat, Action)>)
    requires Inv(s)
    ensures Run(s, schedule).Next? && Inv(Run(s, schedule).s)
    decreases |schedule|
  {
    if schedule != [] {
      var (t, act) := schedule[0];
      if Enabled(s, t, act) {
        StepSafe(s, t, act);
        RunSafe(Do(s, t, act).s, schedule[1..]);
      } else {
        RunSafe(s, schedule[1..]);
      }
    }
  }
}
