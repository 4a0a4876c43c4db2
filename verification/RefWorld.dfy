/** The tables work on nodes that die at any moment but never while they are held, and that
    never come back. The counting machine is such a world. */
module RefWorld {
  import opened Deferred
  import opened RefProtocol
  import opened RefSafety
  import opened RefTheorems
  import opened World

  /** What a node is: its type and the handles inside it. */
  function Data(s: State): seq<(nat, seq<nat>)> {
    seq(|s.objs|, i requires 0 <= i < |s.objs| => (s.objs[i].ty, s.objs[i].kids))
  }

  /** A node is dead once its strong count is zero: no upgrade succeeds from then on. */
  function Dead(s: State): set<nat> {
    set o: nat | o < |s.objs| && s.objs[o].strong == 0
  }

  lemma StepKeepsData(s: State, t: nat, act: Action)
    requires Enabled(s, t, act) && Do(s, t, act).Next?
    ensures Data(s) <= Data(Do(s, t, act).s)
    ensures act.New? ==> Data(Do(s, t, act).s) == Data(s) + [(act.ty, act.kids)]
  {
    var s' := Do(s, t, act).s;
    if act.Tick? {
      TickKeepsObjs(s, t, act.order, act.spurious);
    } else {
      assert |s'.objs| >= |s.objs|;
      assert forall o :: 0 <= o < |s.objs| ==> s'.objs[o].ty == s.objs[o].ty && s'.objs[o].kids == s.objs[o].kids;
    }
  }

  lemma TickKeepsObjs(s: State, t: nat, order: seq<Addr>, spurious: bool)
    requires Enabled(s, t, Tick(order, spurious)) && DoTick(s, t, order, spurious).Next?
    ensures var s' := DoTick(s, t, order, spurious).s;
      |s'.objs| == |s.objs| &&
      forall o :: 0 <= o < |s.objs| ==> s'.objs[o].ty == s.objs[o].ty && s'.objs[o].kids == s.objs[o].kids
  {
  }

  /** Whatever a thread holds a strong handle to is not dead. */
  lemma HeldIsNotDead(s: State, t: nat)
    requires Inv(s) && t < |s.threads|
    ensures Sound(Data(s), Dead(s), s.threads[t].strong)
  {
    forall o | o in s.threads[t].strong ensures o < |s.objs| && s.objs[o].strong > 0 {
      HeldIsLive(s, t, o);
      HandleMeansIntact(s, o);
    }
  }

  /** Every step of every thread is a legal move of the world the tables are proved in. */
  lemma StepIsWorldMove(s: State, t: nat, act: Action)
    requires Inv(s) && Enabled(s, t, act)
    ensures Do(s, t, act).Next? && Inv(Do(s, t, act).s)
    ensures var s' := Do(s, t, act).s;
      && Advances(Data(s), Dead(s), Data(s'), Dead(s'))
      && (forall u :: 0 <= u < |s'.threads| ==> Sound(Data(s'), Dead(s'), s'.threads[u].strong))
  {
    StepSafe(s, t, act);
    StepKeepsData(s, t, act);
    var s' := Do(s, t, act).s;
    forall o | o in Dead(s) ensures o in Dead(s') {
      StepLivesOn(s, t, act, o);
    }
    forall u | 0 <= u < |s'.threads| ensures Sound(Data(s'), Dead(s'), s'.threads[u].strong) {
      HeldIsNotDead(s', u);
    }
  }

  /** And so is every run, with everything all threads did in it. */
  lemma {:induction false} RunIsWorldMove(s: State, schedule: seq<(nat, Action)>)
    requires Inv(s)
    ensures Run(s, schedule).Next? && Inv(Run(s, schedule).s)
    ensures Advances(Data(s), Dead(s), Data(Run(s, schedule).s), Dead(Run(s, schedule).s))
    decreases |schedule|
  {
    if schedule != [] {
      var (t, act) := schedule[0];
      if Enabled(s, t, act) {
        StepIsWorldMove(s, t, act);
        RunIsWorldMove(Do(s, t, act).s, schedule[1..]);
      } else {
        RunIsWorldMove(s, schedule[1..]);
      }
    }
  }

  /** The step that ends an upgrade answers what `World.Upgrade` answers: a handle if and only
      if the node is not dead then. */
  lemma UpgradeIsWorldUpgrade(s: State, t: nat, act: Action, o: nat)
    requires Inv(s) && Enabled(s, t, act)
    requires
      || (act.BeginUpgrade? && act.o == o)
      || (act.Tick? && s.threads[t].stack.top.Upgrade? && s.threads[t].stack.top.obj == o)
    ensures Do(s, t, act).Next? && t < |Do(s, t, act).s.threads|
    ensures var th := Do(s, t, act).s.threads[t];
      !(th.stack.Push? && th.stack.top.Upgrade?) ==>
        th.strong == if o in Dead(Do(s, t, act).s) then s.threads[t].strong else s.threads[t].strong + multiset{o}
  {
    if act.Tick? {
      LoopAnswers(s, t, act.order, act.spurious);
    } else {
      BeginAnswers(s, t, o, act.lender);
    }
  }
}
