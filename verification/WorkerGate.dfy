/**
 * The bounded gate in front of request threads. The accepting call acquires it
 * without blocking and releases it when it raises; the request's thread releases
 * it when its handler ends, however it ends. The two overlap: the thread may run,
 * and finish, before the call that started it returns.
 */
module WorkerGate {

  const WORKERS: int := 4

  datatype Phase = Waiting | Handling

  /**
   * `accepting` are the connections whose accepting call is under way past the
   * acquire, `live` the admitted requests not yet finished. `released` and
   * `refused` record, per connection, the permits given back and how many
   * requests were live when it was refused.
   */
  datatype Gate = Gate(
    permits: int, accepting: set<int>, live: map<int, Phase>, released: multiset<int>, refused: map<int, int>, seen: set<int>)

  datatype Step =
    | Accept(id: int)
    | ThreadStarts(id: int)
    | CallReturns(id: int)
    | CallRaises(id: int)
    | HandlerEnds(id: int)

  const OPEN: Gate := Gate(WORKERS, {}, map[], multiset{}, map[], {})

  /** `BoundedSemaphore.release`: never above the initial value. */
  function Release(g: Gate, id: int): Gate {
    g.(permits := if g.permits < WORKERS then g.permits + 1 else g.permits, released := g.released + multiset{id})
  }

  function Admit(g: Gate, id: int): Gate {
    g.(permits := g.permits - 1, accepting := g.accepting + {id}, live := g.live[id := Waiting], seen := g.seen + {id})
  }

  predicate InPhase(g: Gate, id: int, phase: Phase) {
    id in g.live && g.live[id] == phase
  }

  function Exec(g: Gate, step: Step): Gate {
    match step
    case Accept(id) =>
      if id in g.seen then g
      else if g.permits <= 0 then g.(refused := g.refused[id := |g.live.Keys|], seen := g.seen + {id})
      else Admit(g, id)
    case ThreadStarts(id) =>
      if id in g.accepting && InPhase(g, id, Waiting) then g.(live := g.live[id := Handling]) else g
    case CallReturns(id) =>
      if id in g.accepting && !InPhase(g, id, Waiting) then g.(accepting := g.accepting - {id}) else g
    case CallRaises(id) =>
      if id !in g.accepting then g
      else
        var after := g.(accepting := g.accepting - {id}, live := if InPhase(g, id, Waiting) then g.live - {id} else g.live);
        Release(after, id)
    case HandlerEnds(id) =>
      if InPhase(g, id, Handling) then Release(g.(live := g.live - {id}), id) else g
  }

  function Run(g: Gate, steps: seq<Step>): Gate
    decreases |steps|
  {
    if steps == [] then g else Run(Exec(g, steps[0]), steps[1..])
  }

  /** Permits and unfinished requests add up, and no connection gave back more than one permit. */
  ghost predicate Balanced(g: Gate) {
    g.permits + |g.live.Keys| == 4 && 0 <= g.permits && forall id :: g.released[id] <= 1
  }

  /** The accepting call raises although the thread it started is already under way. */
  predicate RaisesLate(g: Gate, step: Step) {
    step.CallRaises? && step.id in g.accepting && !InPhase(g, step.id, Waiting)
  }

  ghost predicate BalancedThroughout(g: Gate, steps: seq<Step>)
    decreases |steps|
  {
    Balanced(g) && (steps != [] ==> BalancedThroughout(Exec(g, steps[0]), steps[1..]))
  }

  predicate NeverRaisesLate(g: Gate, steps: seq<Step>)
    decreases |steps|
  {
    steps != [] ==> !RaisesLate(g, steps[0]) && NeverRaisesLate(Exec(g, steps[0]), steps[1..])
  }

  /** Every connection seen is refused, unfinished or released once, and an accepting call holds its permit or its thread does. */
  ghost predicate Tracked(g: Gate) {
    && (forall id :: id in g.live ==> id in g.seen && g.released[id] == 0)
    && (forall id :: id in g.live && g.live[id] == Waiting ==> id in g.accepting)
    && (forall id :: id in g.accepting ==> id in g.seen && (id in g.live || g.released[id] == 1))
    && (forall id :: g.released[id] > 0 ==> id in g.seen)
    && (forall id :: id in g.refused ==> id in g.seen && id !in g.live && g.released[id] == 0 && g.refused[id] == WORKERS)
    && (forall id :: id in g.seen ==> id in g.refused || id in g.live || g.released[id] == 1)
  }

  ghost predicate Conserved(g: Gate) {
    Balanced(g) && Tracked(g)
  }

  lemma EndConserves(g: Gate, id: int, accepting: set<int>)
    requires Conserved(g) && id in g.live
    requires accepting == g.accepting || (accepting == g.accepting - {id})
    ensures Conserved(Release(g.(accepting := accepting, live := g.live - {id}), id))
  {
    assert (g.live - {id}).Keys == g.live.Keys - {id};
  }

  lemma AcceptConserves(g: Gate, id: int)
    requires Conserved(g)
    ensures Conserved(Exec(g, Accept(id)))
    ensures id !in g.seen ==> (id in Exec(g, Accept(id)).refused <==> |g.live.Keys| == WORKERS)
  {
    hide Conserved, Balanced;
    ConservedIsBalanced(g);
    if id !in g.seen && g.permits > 0 {
      AdmitConserves(g, id);
    } else if id !in g.seen {
      RefuseConserves(g, id);
    }
  }

  lemma AdmitConserves(g: Gate, id: int)
    requires Conserved(g) && id !in g.seen && g.permits > 0
    ensures Conserved(Admit(g, id)) && id !in g.refused
  {
    hide Tracked;
    NewIsFree(g, id);
    AdmitTracks(g, id);
    OneMoreKey(g.live, id, Waiting);
  }

  lemma NewIsFree(g: Gate, id: int)
    requires Tracked(g) && id !in g.seen
    ensures id !in g.live && id !in g.refused
  {
  }

  lemma OneMoreKey<K, V>(m: map<K, V>, key: K, value: V)
    requires key !in m
    ensures |m[key := value].Keys| == |m.Keys| + 1
  {
    assert m[key := value].Keys == m.Keys + {key};
  }

  lemma AdmitTracks(g: Gate, id: int)
    requires Tracked(g) && id !in g.seen
    ensures Tracked(Admit(g, id))
  {
    var after := Admit(g, id);
    assert after.released == g.released && after.refused == g.refused && id !in g.accepting;
    assert forall other :: other != id ==> (other in after.live <==> other in g.live);
  }

  lemma RefuseConserves(g: Gate, id: int)
    requires Conserved(g) && id !in g.seen && g.permits <= 0
    ensures Conserved(g.(refused := g.refused[id := |g.live.Keys|], seen := g.seen + {id}))
  {
  }

  lemma StartConserves(g: Gate, id: int)
    requires Conserved(g) && id in g.live
    ensures Conserved(g.(live := g.live[id := Handling]))
  {
    assert g.live[id := Handling].Keys == g.live.Keys;
  }

  /** A late raise gives back a permit that is not its own: the thread's handler holds it, or has given it back. */
  lemma LateUnbalances(g: Gate, step: Step)
    requires Conserved(g) && RaisesLate(g, step)
    ensures !Balanced(Exec(g, step))
  {
    if step.id !in g.live {
      assert Exec(g, step).released[step.id] == 2;
    } else {
      assert |g.live.Keys| > 0;
    }
  }

  lemma ExecConserves(g: Gate, step: Step)
    requires Conserved(g) && !RaisesLate(g, step)
    ensures Conserved(Exec(g, step))
  {
    hide Release, Conserved;
    match step
    case Accept(id) => AcceptConserves(g, id);
    case ThreadStarts(id) =>
      if id in g.live {
        StartConserves(g, id);
      }
    case CallReturns(id) => ReturnConserves(g, id);
    case CallRaises(id) =>
      if id in g.accepting {
        EndConserves(g, id, g.accepting - {id});
      }
    case HandlerEnds(id) =>
      if id in g.live {
        EndConserves(g, id, g.accepting);
      }
  }

  lemma ReturnConserves(g: Gate, id: int)
    requires Conserved(g)
    ensures Conserved(Exec(g, CallReturns(id)))
  {
  }

  lemma {:induction false} RunConserves(g: Gate, steps: seq<Step>)
    requires Conserved(g)
    ensures BalancedThroughout(g, steps) <==> NeverRaisesLate(g, steps)
    ensures NeverRaisesLate(g, steps) ==> Conserved(Run(g, steps))
    decreases |steps|
  {
    hide Exec, Conserved, RaisesLate;
    assert Balanced(g) by {
      ConservedIsBalanced(g);
    }
    hide Balanced;
    if steps != [] {
      if RaisesLate(g, steps[0]) {
        LateUnbalances(g, steps[0]);
      } else {
        ExecConserves(g, steps[0]);
        RunConserves(Exec(g, steps[0]), steps[1..]);
      }
    }
  }

  lemma ConservedIsBalanced(g: Gate)
    requires Conserved(g)
    ensures Balanced(g) && g.permits + |g.live.Keys| == 4 && 0 <= g.permits
  {
  }

  /**
   * Over every interleaving: permits and unfinished requests add up to four and
   * none is released twice, throughout, exactly when no accepting call raises
   * after its thread has started.
   */
  lemma GateExact(steps: seq<Step>)
    ensures BalancedThroughout(OPEN, steps) <==> NeverRaisesLate(OPEN, steps)
  {
    hide BalancedThroughout, NeverRaisesLate;
    RunConserves(OPEN, steps);
  }

  /** A call that has returned is over: nothing that follows is a late raise of it. */
  lemma {:induction false} ReturnedIsOver(g: Gate, id: int, steps: seq<Step>)
    requires id in g.seen && id !in g.accepting
    ensures id !in Run(g, steps).accepting && !RaisesLate(Run(g, steps), CallRaises(id))
    ensures Exec(Run(g, steps), CallRaises(id)) == Run(g, steps)
    decreases |steps|
  {
    if steps != [] {
      var next := Exec(g, steps[0]);
      StepLeaves(g, steps[0], id);
      ReturnedIsOver(next, id, steps[1..]);
    }
  }

  lemma StepLeaves(g: Gate, step: Step, id: int)
    requires id in g.seen && id !in g.accepting
    ensures id in Exec(g, step).seen && id !in Exec(g, step).accepting
  {
  }

  /** Then a connection is refused exactly when four requests are in flight at its acquire. */
  lemma RefusedExact(steps: seq<Step>, next: int)
    requires NeverRaisesLate(OPEN, steps) && next !in Run(OPEN, steps).seen
    ensures next in Exec(Run(OPEN, steps), Accept(next)).refused <==> |Run(OPEN, steps).live.Keys| == 4
  {
    hide Run, Exec, NeverRaisesLate;
    RunConserves(OPEN, steps);
    AcceptConserves(Run(OPEN, steps), next);
  }

  /** An admitted request whose thread starts gives its permit back when its handler ends, before or after its call returns; one whose thread does not start, when its call raises. */
  lemma RequestCompletes(steps: seq<Step>, id: int)
    requires NeverRaisesLate(OPEN, steps) && InPhase(Run(OPEN, steps), id, Waiting)
    ensures var g := Run(OPEN, steps);
            var started := Exec(g, ThreadStarts(id));
            var first, second := Exec(Exec(started, CallReturns(id)), HandlerEnds(id)), Exec(Exec(started, HandlerEnds(id)), CallReturns(id));
            && first == second && first == Exec(g, CallRaises(id))
            && Exec(g, HandlerEnds(id)) == g && Exec(g, CallReturns(id)) == g
            && first.permits == g.permits + 1 && first.live == g.live - {id} && id !in first.accepting
  {
    hide Run, NeverRaisesLate;
    RunConserves(OPEN, steps);
    var g := Run(OPEN, steps);
    ConservedIsBalanced(g);
    assert id in g.live.Keys && id in g.accepting;
    assert g.live[id := Handling] - {id} == g.live - {id};
  }
}
