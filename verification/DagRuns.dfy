/** What the actions on the heap do to handles and nodes, and the order of creation they lead to. */
module DagRuns {
  import opened Basics
  import opened Fields
  import opened Graph
  import opened Dag
  import opened DagTheorems

  /** A run is its actions, one after the other. */
  lemma {:induction false} RunsStepByStep(h: Heap, schedule: seq<(nat, Action)>, t: nat, act: Action)
    ensures Run(h, schedule + [(t, act)]) ==
      var r := Run(h, schedule); if Enabled(r, t, act) then Do(r, t, act) else r
    decreases |schedule|
  {
    if schedule == [] {
      assert schedule + [(t, act)] == [(t, act)] && [(t, act)][1..] == [];
    } else {
      var (u, first) := schedule[0];
      assert (schedule + [(t, act)])[1..] == schedule[1..] + [(t, act)];
      RunsStepByStep(if Enabled(h, u, first) then Do(h, u, first) else h, schedule[1..], t, act);
    }
  }

  lemma {:induction false} RunsCompose(h: Heap, first: seq<(nat, Action)>, second: seq<(nat, Action)>)
    ensures Run(h, first + second) == Run(Run(h, first), second)
    decreases |first|
  {
    if first == [] {
      assert first + second == second;
    } else {
      var (t, act) := first[0];
      assert (first + second)[1..] == first[1..] + second;
      RunsCompose(if Enabled(h, t, act) then Do(h, t, act) else h, first[1..], second);
    }
  }

  // ---------------------------------------------------------------- handles

  /** The nodes that are alive with this data: none or one. */
  function With(h: Heap, d: Struct<nat>): set<nat> {
    set n | n in Alive(h) && n < |h.data| && h.data[n] == d
  }

  /** Who ends up with a new handle, if anybody does. */
  function Receiver(t: nat, act: Action): nat {
    if act.Send? then act.to else t
  }

  /** To which node: the one named, or the one that is alive with that data, or the one just built. */
  function Gained(h: Heap, t: nat, act: Action): set<nat>
    requires Enabled(h, t, act)
  {
    match act
    case Lookup(d) => With(h, d)
    case Publish =>
      var n := h.threads[t].call.n;
      if With(h, h.data[n]) == {} then {n} else With(h, h.data[n])
    case Clone(n) => {n}
    case Send(n, _) => {n}
    case _ => {}
  }

  /** Every action gives the handles it is there to give and takes the one it is there to take,
      and no thread's handles change otherwise. */
  lemma ActionsMoveHandles(h: Heap, t: nat, act: Action, u: nat)
    requires GraphOk(h) && Enabled(h, t, act) && u < |h.threads|
    ensures |Do(h, t, act).threads| == |h.threads|
    ensures Do(h, t, act).threads[u].held ==
      (if u == Receiver(t, act) then h.threads[u].held + Gained(h, t, act) else h.threads[u].held)
      - (if act.Drop? && u == t then {act.n} else {})
  {
    if act.Lookup? {
      WithIsFound(h, act.d);
    } else if act.Publish? {
      WithIsFound(h, h.data[h.threads[t].call.n]);
    }
  }

  lemma WithIsFound(h: Heap, d: Struct<nat>)
    requires GraphOk(h)
    ensures With(h, d) == match Find(h, d, |h.data|) case None => {} case Some(n) => {n}
  {
  }

  /** Nodes come to life when they are allocated, with the data of the call and the ID it
      took; they go when they die, or when another node was there first. No node ever changes. */
  lemma ActionsMoveNodes(h: Heap, t: nat, act: Action)
    requires GraphOk(h) && Enabled(h, t, act)
    ensures var h', call := Do(h, t, act), h.threads[t].call;
      if act.Allocate? then
        && h'.data == h.data + [call.d] && h'.ids == h.ids + [call.id]
        && h'.live == h.live + {|h.data|} && h'.threads[t].call == Built(|h.data|)
      else
        && h'.data == h.data && h'.ids == h.ids
        && h'.live == h.live - (if act.Die? then {act.n}
                                else if act.Publish? && With(h, h.data[call.n]) != {} then {call.n} else {})
  {
    if act.Publish? {
      WithIsFound(h, h.data[h.threads[t].call.n]);
    }
  }

  /** A thread that is not inside a call can drop what it holds, hand it to any thread, take a
      handle out of any node it holds, and ask for anything that it can make from its handles. */
  lemma HandlesAreUsable(h: Heap, t: nat, p: nat, n: nat, to: nat, d: Struct<nat>)
    requires Inv(h) && t < |h.threads| && to < |h.threads| && h.threads[t].call.NoCall? && p in h.threads[t].held
    ensures Enabled(h, t, Drop(p)) && Enabled(h, t, Send(p, to))
    ensures p < |h.data| && (n in Kids(h.data, p) ==> Enabled(h, t, Clone(n)))
    ensures Holds(h, t, d) ==> Enabled(h, t, Lookup(d))
  {
    assert ThreadOk(h, t);
    assert p in Alive(h);
  }

  // ---------------------------------------------------------------- order of creation

  /** The node that a thread with an ID in hand allocates when this part of the run gets to it. */
  ghost predicate Builds(h: Heap, t: nat, schedule: seq<(nat, Action)>, n: nat)
    decreases |schedule|
  {
    && schedule != []
    && if !Enabled(h, schedule[0].0, schedule[0].1) then Builds(h, t, schedule[1..], n)
       else if schedule[0] == (t, Allocate) then n == |h.data|
       else Builds(Do(h, schedule[0].0, schedule[0].1), t, schedule[1..], n)
  }

  /** The node gets the ID the call reserved, however long that was ago. */
  lemma {:induction false} BuiltWithReservedId(h: Heap, t: nat, schedule: seq<(nat, Action)>, n: nat)
    requires Inv(h) && t < |h.threads| && h.threads[t].call.Reserved? && Builds(h, t, schedule, n)
    ensures n < |Run(h, schedule).ids| && Run(h, schedule).ids[n] == h.threads[t].call.id
    decreases |schedule|
  {
    var (u, act) := schedule[0];
    if Enabled(h, u, act) {
      StepInv(h, u, act);
      if (u, act) == (t, Allocate) {
        RunGrows(Do(h, u, act), schedule[1..]);
      } else {
        BuiltWithReservedId(Do(h, u, act), t, schedule[1..], n);
      }
    } else {
      BuiltWithReservedId(h, t, schedule[1..], n);
    }
  }

  lemma {:induction false} RunGrows(h: Heap, schedule: seq<(nat, Action)>)
    requires Inv(h)
    ensures Inv(Run(h, schedule)) && h.ids <= Run(h, schedule).ids && h.counter <= Run(h, schedule).counter
    ensures |Run(h, schedule).threads| == |h.threads|
    decreases |schedule|
  {
    if schedule != [] {
      var (t, act) := schedule[0];
      if Enabled(h, t, act) {
        StepInv(h, t, act);
        RunGrows(Do(h, t, act), schedule[1..]);
      } else {
        RunGrows(h, schedule[1..]);
      }
    }
  }

  /** The ID reserved is the value of the counter, above all IDs there are. */
  lemma ReservedId(h: Heap, t: nat, rest: seq<(nat, Action)>, n: nat)
    requires Inv(h) && Enabled(h, t, Reserve) && Builds(Do(h, t, Reserve), t, rest, n)
    ensures var end := Run(Do(h, t, Reserve), rest); n < |end.ids| && end.ids[n] == h.counter && h.ids <= end.ids
    ensures forall c :: 0 <= c < |h.ids| ==> h.ids[c] < h.counter
  {
    StepInv(h, t, Reserve);
    BuiltWithReservedId(Do(h, t, Reserve), t, rest, n);
    RunGrows(Do(h, t, Reserve), rest);
  }

  lemma CounterAfter(h: Heap, t: nat, between: seq<(nat, Action)>)
    requires Inv(h) && Enabled(h, t, Reserve)
    ensures Inv(Run(Do(h, t, Reserve), between)) && h.counter < Run(Do(h, t, Reserve), between).counter
  {
    StepInv(h, t, Reserve);
    RunGrows(Do(h, t, Reserve), between);
  }

  lemma TwoReserves(h: Heap, t: nat, between: seq<(nat, Action)>, u: nat, after: seq<(nat, Action)>)
    requires Enabled(h, t, Reserve) && Enabled(Run(Do(h, t, Reserve), between), u, Reserve)
    ensures var end := Run(h, [(t, Reserve)] + between + [(u, Reserve)] + after);
      && end == Run(Do(h, t, Reserve), between + [(u, Reserve)] + after)
      && end == Run(Do(Run(Do(h, t, Reserve), between), u, Reserve), after)
  {
    var whole := [(t, Reserve)] + between + [(u, Reserve)] + after;
    assert whole[0] == (t, Reserve) && whole[1..] == between + [(u, Reserve)] + after;
    RunsStepByStep(Do(h, t, Reserve), between, u, Reserve);
    RunsCompose(Do(h, t, Reserve), between + [(u, Reserve)], after);
  }

  /** `cmp` is the order in which `creation_meta` ran: of two nodes the one whose ID was
      reserved first is `Less`, whichever was allocated first and whichever thread was
      faster after that; and every node that was there before is `Less` than both. */
  lemma ReservedFirstIsLess(h: Heap, t: nat, between: seq<(nat, Action)>, u: nat, after: seq<(nat, Action)>, a: nat,
                            b: nat)
    requires Inv(h) && Enabled(h, t, Reserve)
    requires Enabled(Run(Do(h, t, Reserve), between), u, Reserve)
    requires Builds(Do(h, t, Reserve), t, between + [(u, Reserve)] + after, a)
    requires Builds(Do(Run(Do(h, t, Reserve), between), u, Reserve), u, after, b)
    ensures var end := Run(h, [(t, Reserve)] + between + [(u, Reserve)] + after);
      && a < |end.ids| && b < |end.ids| && |h.ids| <= |end.ids|
      && Cmp(end, a, b) == Less
      && forall c :: 0 <= c < |h.ids| ==> Cmp(end, c, a) == Less && Cmp(end, c, b) == Less
  {
    CounterAfter(h, t, between);
    TwoReserves(h, t, between, u, after);
    ReservedId(h, t, between + [(u, Reserve)] + after, a);
    ReservedId(Run(Do(h, t, Reserve), between), u, after, b);
  }
}
