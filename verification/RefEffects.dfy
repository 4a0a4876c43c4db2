/** What the steps of the counting machine do for their callers: who holds which handles
    afterwards, where decrements are kept, and that nothing gets stuck. */
module RefEffects {
  import opened Deferred
  import opened RefProtocol
  import opened RefSafety
  import opened RefTheorems

  // ---------------------------------------------------------------- who holds what

  datatype Held = Held(strong: multiset<nat>, weak: multiset<nat>)

  function Holding(s: State, u: nat): Held
    requires u < |s.threads|
  {
    Held(s.threads[u].strong, s.threads[u].weak)
  }

  /** The step of an upgrade hands out a handle: by cancelling a buffered decrement, or by an
      exchange that finds the count it has seen and does not fail for no reason. */
  predicate UpgradeSucceeds(s: State, t: nat, act: Action, o: nat)
    requires t < |s.threads|
  {
    var th := s.threads[t];
    match act
    case BeginUpgrade(p, _) => p == o < |s.objs| && th.tls && s.objs[o].addr in th.buf.entries
    case Tick(_, spurious) =>
      && th.stack.Push? && th.stack.top.Upgrade? && th.stack.top.obj == o < |s.objs|
      && s.objs[o].strong == th.stack.top.seen && !spurious
    case _ => false
  }

  /** What thread `u` holds after thread `t` has acted, as a user of handles thinks of it. */
  function HoldingAfter(s: State, t: nat, act: Action, u: nat): Held
    requires t < |s.threads| && u < |s.threads|
  {
    var was := Holding(s, u);
    match act
    case New(_, _, kids) =>
      var o: nat := |s.objs|;
      var given: multiset<nat> := multiset(kids);
      if u == t then was.(strong := was.strong - given + multiset{o}) else was
    case Clone(o) => if u == t then was.(strong := was.strong + multiset{o}) else was
    case Drop(o, _) => if u == t then was.(strong := was.strong - multiset{o}) else was
    case Downgrade(o) => if u == t then was.(weak := was.weak + multiset{o}) else was
    case DropWeak(o) => if u == t then was.(weak := was.weak - multiset{o}) else was
    case SendStrong(o, to) =>
      if u == t then was.(strong := was.strong - multiset{o})
      else if u == to then was.(strong := was.strong + multiset{o})
      else was
    case SendWeak(o, to) =>
      if u == t then was.(weak := was.weak - multiset{o})
      else if u == to then was.(weak := was.weak + multiset{o})
      else was
    case BeginUpgrade(o, _) =>
      if u == t && UpgradeSucceeds(s, t, act, o) then was.(strong := was.strong + multiset{o}) else was
    case Tick(_, _) =>
      var st := s.threads[t].stack;
      if u == t && st.Push? && st.top.Upgrade? && UpgradeSucceeds(s, t, act, st.top.obj) then
        var o := st.top.obj;
        was.(strong := was.strong + multiset{o})
      else was
    case Exit(_) => was
  }

  /** Every action gives and takes exactly the handles it is meant to, and no other thread
      gains or loses any. */
  lemma ActionsMoveHandles(s: State, t: nat, act: Action, u: nat)
    requires Inv(s) && Enabled(s, t, act) && u < |s.threads|
    ensures Do(s, t, act).Next? && |Do(s, t, act).s.threads| == |s.threads|
    ensures Holding(Do(s, t, act).s, u) == HoldingAfter(s, t, act, u)
  {
    StepRuns(s, t, act);
    if act.Tick? {
      TickMovesHandles(s, t, act.order, act.spurious, u);
    } else if act.SendStrong? || act.SendWeak? {
      SendMovesHandles(s, t, act, u);
    } else {
      OwnMovesHandles(s, t, act, u);
    }
  }

  lemma SendMovesHandles(s: State, t: nat, act: Action, u: nat)
    requires Enabled(s, t, act) && u < |s.threads| && (act.SendStrong? || act.SendWeak?)
    ensures |Do(s, t, act).s.threads| == |s.threads| && Holding(Do(s, t, act).s, u) == HoldingAfter(s, t, act, u)
  {
  }

  lemma OwnMovesHandles(s: State, t: nat, act: Action, u: nat)
    requires Enabled(s, t, act) && Do(s, t, act).Next? && u < |s.threads|
    requires !act.Tick? && !act.SendStrong? && !act.SendWeak?
    ensures |Do(s, t, act).s.threads| == |s.threads| && Holding(Do(s, t, act).s, u) == HoldingAfter(s, t, act, u)
  {
    if u != t {
      assert Do(s, t, act).s.threads == s.threads[t := Do(s, t, act).s.threads[t]] by {
        assert s.threads[t := s.threads[t]] == s.threads;
      }
    }
  }

  lemma TickMovesHandles(s: State, t: nat, order: seq<Addr>, spurious: bool, u: nat)
    requires Enabled(s, t, Tick(order, spurious)) && DoTick(s, t, order, spurious).Next? && u < |s.threads|
    ensures |DoTick(s, t, order, spurious).s.threads| == |s.threads|
    ensures Holding(DoTick(s, t, order, spurious).s, u) == HoldingAfter(s, t, Tick(order, spurious), u)
  {
  }

  /** A new object is there, holds the handles that went into it, and nothing else changed. */
  lemma NewObjectHoldsItsFields(s: State, t: nat, addr: Addr, ty: nat, kids: seq<nat>)
    requires Inv(s) && Enabled(s, t, New(addr, ty, kids))
    ensures Do(s, t, New(addr, ty, kids)).Next?
    ensures var s' := Do(s, t, New(addr, ty, kids)).s;
      && |s'.objs| == |s.objs| + 1 && s.objs <= s'.objs
      && var x := s'.objs[|s.objs|];
        x.addr == addr && x.ty == ty && x.kids == kids && x.phase == Intact && x.strong == 1 && x.weak == 1
  {
  }

  // ---------------------------------------------------------------- how many handles there are

  /** Handles to `i` that the step makes, less those it ends. */
  function HandlesMade(s: State, t: nat, act: Action, i: nat): int
    requires t < |s.threads|
  {
    match act
    case New(_, _, _) => if i == |s.objs| then 1 else 0
    case Clone(o) => if i == o then 1 else 0
    case Drop(o, _) => if i == o then -1 else 0
    case BeginUpgrade(o, _) => if i == o && UpgradeSucceeds(s, t, act, o) then 1 else 0
    case Tick(_, _) =>
      var st := s.threads[t].stack;
      if !st.Push? then 0
      else if st.top.Upgrade? then (if i == st.top.obj && UpgradeSucceeds(s, t, act, i) then 1 else 0)
      else if st.top.Kids? && st.top.rest != [] then (if i == st.top.rest[0] then -1 else 0)
      else 0
    case _ => 0
  }

  lemma {:induction false} SameFieldRefs(objs: seq<Obj>, objs': seq<Obj>, o: nat)
    requires |objs| == |objs'| && forall i :: 0 <= i < |objs| ==> Refs(objs'[i], o) == Refs(objs[i], o)
    ensures FieldRefs(objs', o) == FieldRefs(objs, o)
  {
    if objs != [] {
      assert forall i :: 0 <= i < |objs[1..]| ==> objs[1..][i] == objs[i + 1] && objs'[1..][i] == objs'[i + 1];
      SameFieldRefs(objs[1..], objs'[1..], o);
    }
  }

  /** One thread acts on objects whose data stays: the handles are counted on that thread. */
  lemma CountedOnThread(s: State, s': State, t: nat, th: Thread, i: nat)
    requires t < |s.threads| && s'.threads == s.threads[t := th] && |s'.objs| == |s.objs|
    requires forall p :: 0 <= p < |s.objs| ==> Refs(s'.objs[p], i) == Refs(s.objs[p], i)
    ensures LiveHandles(s', i) == LiveHandles(s, i) + Tokens(th, Handle(i)) - Tokens(s.threads[t], Handle(i))
  {
    TotalSet(s.threads, t, th, Handle(i));
    SameFieldRefs(s.objs, s'.objs, i);
  }

  /** Handles are made and ended only by the actions that are meant to: none vanishes, none
      appears, wherever it is held, in threads, in data, or in data being dropped. */
  lemma HandlesAreConserved(s: State, t: nat, act: Action, i: nat)
    requires Inv(s) && Enabled(s, t, act)
    ensures Do(s, t, act).Next?
    ensures LiveHandles(Do(s, t, act).s, i) == LiveHandles(s, i) + HandlesMade(s, t, act, i)
  {
    StepRuns(s, t, act);
    match act
    case New(addr, ty, kids) => NewClaims(s, t, addr, ty, kids, i, addr);
    case SendStrong(_, _) => SentTotals(s, t, act);
    case SendWeak(_, _) => SentTotals(s, t, act);
    case Tick(order, spurious) => TickConserves(s, t, order, spurious, i);
    case Drop(o, order) => DropConserves(s, t, o, order, i);
    case _ => PlainConserves(s, t, act, i);
  }

  lemma PlainConserves(s: State, t: nat, act: Action, i: nat)
    requires Enabled(s, t, act) && Do(s, t, act).Next?
    requires act.Clone? || act.Downgrade? || act.DropWeak? || act.BeginUpgrade? || act.Exit?
    ensures LiveHandles(Do(s, t, act).s, i) == LiveHandles(s, i) + HandlesMade(s, t, act, i)
  {
    PlainOnThread(s, t, act, i);
    CountedOnThread(s, Do(s, t, act).s, t, Do(s, t, act).s.threads[t], i);
  }

  lemma PlainOnThread(s: State, t: nat, act: Action, i: nat)
    requires Enabled(s, t, act) && Do(s, t, act).Next?
    requires act.Clone? || act.Downgrade? || act.DropWeak? || act.BeginUpgrade? || act.Exit?
    ensures var s' := Do(s, t, act).s;
      && |s'.threads| == |s.threads| && s'.threads == s.threads[t := s'.threads[t]] && |s'.objs| == |s.objs|
      && Tokens(s'.threads[t], Handle(i)) == Tokens(s.threads[t], Handle(i)) + HandlesMade(s, t, act, i)
      && forall p :: 0 <= p < |s.objs| ==> Refs(s'.objs[p], i) == Refs(s.objs[p], i)
  {
    assert s.threads[t := s.threads[t]] == s.threads;
    if act.Clone? || act.BeginUpgrade? {
      GainOnThread(s, t, act, i);
    }
  }

  lemma GainOnThread(s: State, t: nat, act: Action, i: nat)
    requires Enabled(s, t, act) && Do(s, t, act).Next? && (act.Clone? || act.BeginUpgrade?)
    ensures var s' := Do(s, t, act).s;
      && |s'.threads| == |s.threads| && s'.threads == s.threads[t := s'.threads[t]] && |s'.objs| == |s.objs|
      && Tokens(s'.threads[t], Handle(i)) == Tokens(s.threads[t], Handle(i)) + HandlesMade(s, t, act, i)
      && forall p :: 0 <= p < |s.objs| ==> Refs(s'.objs[p], i) == Refs(s.objs[p], i)
  {
    assert s.threads[t := s.threads[t]] == s.threads;
  }

  lemma DropConserves(s: State, t: nat, o: nat, order: seq<Addr>, i: nat)
    requires Enabled(s, t, Drop(o, order))
    ensures LiveHandles(Do(s, t, Drop(o, order)).s, i) == LiveHandles(s, i) + HandlesMade(s, t, Drop(o, order), i)
  {
    var s' := Do(s, t, Drop(o, order)).s;
    CountedOnThread(s, s', t, s'.threads[t], i);
  }

  lemma TickConserves(s: State, t: nat, order: seq<Addr>, spurious: bool, i: nat)
    requires Enabled(s, t, Tick(order, spurious)) && DoTick(s, t, order, spurious).Next?
    ensures LiveHandles(DoTick(s, t, order, spurious).s, i) ==
      LiveHandles(s, i) + HandlesMade(s, t, Tick(order, spurious), i)
  {
    match s.threads[t].stack.top
    case Apply(_) => ApplyConserves(s, t, order, spurious, i);
    case Doomed(_) => DoomedConserves(s, t, order, spurious, i);
    case Kids(_, _) => KidsConserves(s, t, order, spurious, i);
    case Dealloc(_) => ApplyConserves(s, t, order, spurious, i);
    case Upgrade(_, _, _) => ExchangeConserves(s, t, order, spurious, i);
  }

  lemma ApplyConserves(s: State, t: nat, order: seq<Addr>, spurious: bool, i: nat)
    requires Enabled(s, t, Tick(order, spurious)) && DoTick(s, t, order, spurious).Next?
    requires s.threads[t].stack.top.Apply? || s.threads[t].stack.top.Dealloc?
    ensures LiveHandles(DoTick(s, t, order, spurious).s, i) == LiveHandles(s, i)
  {
    var s' := DoTick(s, t, order, spurious).s;
    var th := s.threads[t];
    if th.stack.top.Apply? && th.stack.top.todo != [] {
      var st := Push(Apply(th.stack.top.todo[1..]), th.stack.below);
      assert StackTokens(st, Handle(i)) == StackTokens(th.stack, Handle(i));
    }
    CountedOnThread(s, s', t, s'.threads[t], i);
  }

  /** Dropping data moves the handles in it onto the stack of the thread that drops it. */
  lemma DoomedConserves(s: State, t: nat, order: seq<Addr>, spurious: bool, i: nat)
    requires Enabled(s, t, Tick(order, spurious)) && DoTick(s, t, order, spurious).Next?
    requires s.threads[t].stack.top.Doomed?
    ensures LiveHandles(DoTick(s, t, order, spurious).s, i) == LiveHandles(s, i)
  {
    var s' := DoTick(s, t, order, spurious).s;
    var o := s.threads[t].stack.top.obj;
    TotalSet(s.threads, t, s'.threads[t], Handle(i));
    FieldRefsSet(s.objs, o, s'.objs[o], i);
  }

  lemma KidsConserves(s: State, t: nat, order: seq<Addr>, spurious: bool, i: nat)
    requires Enabled(s, t, Tick(order, spurious)) && DoTick(s, t, order, spurious).Next?
    requires s.threads[t].stack.top.Kids?
    ensures LiveHandles(DoTick(s, t, order, spurious).s, i) ==
      LiveHandles(s, i) + HandlesMade(s, t, Tick(order, spurious), i)
  {
    var s', th := DoTick(s, t, order, spurious).s, s.threads[t];
    var rest := th.stack.top.rest;
    if rest != [] {
      FirstKid(rest, i);
      var th1 := th.(stack := Push(Kids(th.stack.top.obj, rest[1..]), th.stack.below));
      DropKeepsHandles(th1, s.objs[rest[0]], order, i);
    }
    CountedOnThread(s, s', t, s'.threads[t], i);
  }

  lemma FirstKid(rest: seq<nat>, i: nat)
    requires rest != []
    ensures multiset(rest)[i] == multiset(rest[1..])[i] + if i == rest[0] then 1 else 0
  {
    assert rest == [rest[0]] + rest[1..];
  }

  /** Where the decrement goes has nothing to do with the handles the thread still has. */
  lemma DropKeepsHandles(th: Thread, x: Obj, order: seq<Addr>, i: nat)
    requires FlushOrder(th, x, order)
    ensures Tokens(DropHandle(th, x, order), Handle(i)) == Tokens(th, Handle(i))
  {
  }

  lemma ExchangeConserves(s: State, t: nat, order: seq<Addr>, spurious: bool, i: nat)
    requires Enabled(s, t, Tick(order, spurious)) && DoTick(s, t, order, spurious).Next?
    requires s.threads[t].stack.top.Upgrade?
    ensures LiveHandles(DoTick(s, t, order, spurious).s, i) ==
      LiveHandles(s, i) + HandlesMade(s, t, Tick(order, spurious), i)
  {
    var s' := DoTick(s, t, order, spurious).s;
    CountedOnThread(s, s', t, s'.threads[t], i);
  }

  // ---------------------------------------------------------------- where decrements are kept

  /** A buffered decrement is cancelled first: then the shared counters are not touched. */
  lemma CancelsBeforeCounting(s: State, t: nat, act: Action, o: nat)
    requires Inv(s) && Enabled(s, t, act) && (act == Clone(o) || (act.BeginUpgrade? && act.o == o))
    ensures Do(s, t, act).Next? && o < |s.objs| == |Do(s, t, act).s.objs|
    ensures var s', a := Do(s, t, act).s, s.objs[o].addr;
      if s.threads[t].tls && a in s.threads[t].buf.entries then
        && s'.objs == s.objs
        && Amount(s'.threads[t].buf.entries, a) + 1 == Amount(s.threads[t].buf.entries, a)
      else
        && s'.threads[t].buf == s.threads[t].buf
        && (act.Clone? ==> s'.objs[o].strong == s.objs[o].strong + 1)
  {
    StepRuns(s, t, act);
    ThreadOf(s, t);
  }

  /** Dropping a handle leaves one more decrement owed by this thread and touches no counter;
      while the buffer is there and not full, that is all that happens. */
  lemma DropOwesOne(s: State, t: nat, o: nat, order: seq<Addr>)
    requires Inv(s) && Enabled(s, t, Drop(o, order))
    ensures Do(s, t, Drop(o, order)).Next?
    ensures var s', a := Do(s, t, Drop(o, order)).s, s.objs[o].addr;
      var th, th' := s.threads[t], s'.threads[t];
      && s'.objs == s.objs && s'.mem == s.mem && th'.tls == th.tls
      && (forall b: Addr :: Tokens(th', Owed(b)) == Tokens(th, Owed(b)) + if b == a then 1 else 0)
      && (th.tls && th.buf.ops + 1 < 4096 && |th.buf.entries.Keys + {a}| < 1024 ==>
            th'.stack == th.stack && Amount(th'.buf.entries, a) == Amount(th.buf.entries, a) + 1)
      && (!th.tls ==> th'.buf == th.buf)
  {
    var th, x := s.threads[t].(strong := s.threads[t].strong - multiset{o}), s.objs[o];
    assert Do(s, t, Drop(o, order)) == Next(SetThread(s, t, DropHandle(th, x, order)));
    forall b: Addr
      ensures Tokens(DropHandle(th, x, order), Owed(b)) == Tokens(s.threads[t], Owed(b)) + if b == x.addr then 1 else 0
    {
      DroppedTokens(th, x, order);
      assert Tokens(th, Owed(b)) == Tokens(s.threads[t], Owed(b));
    }
    BufferedUnlessFull(th, x, order);
  }

  lemma BufferedUnlessFull(th: Thread, x: Obj, order: seq<Addr>)
    requires FlushOrder(th, x, order)
    ensures var th' := DropHandle(th, x, order);
      && (th.tls && th.buf.ops + 1 < 4096 && |th.buf.entries.Keys + {x.addr}| < 1024 ==>
            th'.stack == th.stack && Amount(th'.buf.entries, x.addr) == Amount(th.buf.entries, x.addr) + 1)
      && (!th.tls ==> th'.buf == th.buf)
  {
    var c := Counted(th.buf, x.addr, x.ty);
    assert c.entries.Keys == th.buf.entries.Keys + {x.addr};
    assert |c.entries| == |c.entries.Keys|;
  }

  /** After its exit step a thread has no buffer, and owes on its stack what was in it. */
  lemma ExitFlushes(s: State, t: nat, order: seq<Addr>)
    requires Inv(s) && Enabled(s, t, Exit(order))
    ensures Do(s, t, Exit(order)).Next?
    ensures var th, th' := s.threads[t], Do(s, t, Exit(order)).s.threads[t];
      && !th'.tls && th'.buf.entries == map[]
      && (forall a: Addr :: StackTokens(th'.stack, Owed(a)) ==
            StackTokens(th.stack, Owed(a)) + Amount(th.buf.entries, a))
  {
    DrainKeepsAmounts(s.threads[t].buf.entries, order);
  }

  // ---------------------------------------------------------------- upgrades end

  /** An exchange that finds the count it has seen succeeds, unless it fails for no reason. */
  lemma ExchangeSucceeds(s: State, t: nat, order: seq<Addr>)
    requires Inv(s) && Enabled(s, t, Tick(order, false)) && s.threads[t].stack.top.Upgrade?
    requires var f := s.threads[t].stack.top; f.obj < |s.objs| && s.objs[f.obj].strong == f.seen
    ensures DoTick(s, t, order, false).Next?
    ensures var o, s' := s.threads[t].stack.top.obj, DoTick(s, t, order, false).s;
      && !InUpgrade(s', t)
      && s'.threads[t].strong == s.threads[t].strong + multiset{o}
      && s'.objs[o].strong == s.objs[o].strong + 1
  {
    UpgradeTarget(s, t);
  }

  predicate InUpgrade(s: State, t: nat) {
    t < |s.threads| && s.threads[t].stack.Push? && s.threads[t].stack.top.Upgrade?
  }

  /** A thread that nobody disturbs is out of its upgrade after at most two turns of the loop,
      with a handle exactly if the data is alive. */
  lemma UpgradeEndsInTwo(s: State, t: nat, order: seq<Addr>)
    requires Inv(s) && InUpgrade(s, t)
    ensures var o := s.threads[t].stack.top.obj;
      && o < |s.objs| && Enabled(s, t, Tick(order, false)) && DoTick(s, t, order, false).Next?
      && var s1 := DoTick(s, t, order, false).s;
        if !InUpgrade(s1, t) then
          s1.threads[t].strong == s.threads[t].strong + if s.objs[o].strong > 0 then multiset{o} else multiset{}
        else
          && s.objs[o].strong > 0 && Enabled(s1, t, Tick(order, false)) && DoTick(s1, t, order, false).Next?
          && var s2 := DoTick(s1, t, order, false).s;
            !InUpgrade(s2, t) && s2.threads[t].strong == s.threads[t].strong + multiset{o}
  {
    UpgradeTarget(s, t);
    assert Enabled(s, t, Tick(order, false));
    StepSafe(s, t, Tick(order, false));
    var s1 := DoTick(s, t, order, false).s;
    if InUpgrade(s1, t) {
      StillInUpgrade(s, t, order);
      ExchangeSucceeds(s1, t, order);
    }
  }

  lemma StillInUpgrade(s: State, t: nat, order: seq<Addr>)
    requires Inv(s) && InUpgrade(s, t) && Enabled(s, t, Tick(order, false)) && DoTick(s, t, order, false).Next?
    requires InUpgrade(DoTick(s, t, order, false).s, t)
    ensures var f, s1 := s.threads[t].stack.top, DoTick(s, t, order, false).s;
      && f.obj < |s.objs| && s1.objs == s.objs && s.objs[f.obj].strong > 0
      && s1.threads[t].strong == s.threads[t].strong
      && s1.threads[t].stack.top == Upgrade(f.obj, f.lender, s.objs[f.obj].strong)
  {
    UpgradeTarget(s, t);
  }

  // ---------------------------------------------------------------- nothing is stuck

  /** Every map drains in some order. */
  lemma {:induction false} SomeOrder(m: map<Addr, Entry>) returns (order: seq<Addr>)
    ensures IsOrder(order, m)
    decreases |m|
  {
    order := [];
    if m != map[] {
      var a :| a in m;
      var rest := SomeOrder(m - {a});
      order := [a] + rest;
    }
  }

  /** A thread inside a drop or an upgrade can always take its next step. */
  lemma TickIsPossible(s: State, t: nat) returns (order: seq<Addr>)
    requires t < |s.threads| && s.threads[t].stack.Push?
    ensures Enabled(s, t, Tick(order, false))
  {
    var th := s.threads[t];
    order := [];
    if th.stack.top.Kids? && th.stack.top.rest != [] && th.stack.top.rest[0] < |s.objs| {
      var x := s.objs[th.stack.top.rest[0]];
      order := SomeOrder(Counted(th.buf, x.addr, x.ty).entries);
    }
  }

  /** And one that is not inside anything can use what it holds: clone it, drop it, make a
      weak handle, hand it over, put it into a new object, and exit. */
  lemma HandlesAreUsable(s: State, t: nat, o: nat) returns (order: seq<Addr>, last: seq<Addr>)
    requires Inv(s) && t < |s.threads| && s.threads[t].stack == Empty && o in s.threads[t].strong
    ensures Enabled(s, t, Clone(o)) && Enabled(s, t, Downgrade(o)) && Enabled(s, t, Drop(o, order))
    ensures forall to :: 0 <= to < |s.threads| && to != t ==> Enabled(s, t, SendStrong(o, to))
    ensures forall addr, ty :: addr !in s.mem ==> Enabled(s, t, New(addr, ty, [o]))
    ensures s.threads[t].tls ==> Enabled(s, t, Exit(last))
  {
    HeldIsLive(s, t, o);
    HandleMeansIntact(s, o);
    var th, x := s.threads[t], s.objs[o];
    order := SomeOrder(Counted(th.buf, x.addr, x.ty).entries);
    last := SomeOrder(th.buf.entries);
  }

  /** A weak handle can be upgraded, and unless another thread is upgrading through it, dropped
      and handed over. */
  lemma WeakHandlesAreUsable(s: State, t: nat, o: nat)
    requires Inv(s) && t < |s.threads| && s.threads[t].stack == Empty && o in s.threads[t].weak
    ensures Enabled(s, t, BeginUpgrade(o, t))
    ensures !Lent(s, t, o) ==> Enabled(s, t, DropWeak(o))
    ensures !Lent(s, t, o) ==> forall to :: 0 <= to < |s.threads| && to != t ==> Enabled(s, t, SendWeak(o, to))
  {
    WeakMeansAllocated(s, t, o);
  }

  /** A run is its steps, one after the other. */
  lemma {:induction false} RunsStepByStep(s: State, schedule: seq<(nat, Action)>, t: nat, act: Action)
    requires Run(s, schedule).Next?
    ensures Run(s, schedule + [(t, act)]) ==
      var r := Run(s, schedule).s; if Enabled(r, t, act) then Do(r, t, act) else Next(r)
    decreases |schedule|
  {
    if schedule == [] {
      assert schedule + [(t, act)] == [(t, act)] && [(t, act)][1..] == [];
    } else {
      var (u, first) := schedule[0];
      assert (schedule + [(t, act)])[1..] == schedule[1..] + [(t, act)];
      if Enabled(s, u, first) {
        RunsStepByStep(Do(s, u, first).s, schedule[1..], t, act);
      } else {
        RunsStepByStep(s, schedule[1..], t, act);
      }
    }
  }
}
