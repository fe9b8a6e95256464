/** The work queue of the reconciler. Enqueuers update the queue under its lock and signal afterwards; the worker
    takes the one-place wake token and then a snapshot, again under the lock. Steps of all of them interleave. */
module Queue {

  /** Woken: the worker has the token and has yet to take its snapshot. */
  datatype Worker = Idle | Woken | Working(all: bool, ids: set<string>)

  /** `owing` counts enqueuers between their update and their signal. */
  datatype State = State(queueAll: bool, queued: set<string>, token: bool, owing: nat, worker: Worker)

  datatype Step = Enqueue(id: string) | EnqueueAll | Signal | TakeToken | Snapshot | Finish

  const START := State(false, {}, false, 0, Idle)

  // ---- Atomic steps ----

  predicate Enabled(s: State, step: Step) {
    match step
    case Enqueue(_) => true
    case EnqueueAll => true
    case Signal => s.owing > 0
    case TakeToken => s.token && s.worker.Idle?
    case Snapshot => s.worker.Woken?
    case Finish => s.worker.Working?
  }

  function After(s: State, step: Step): State
    requires Enabled(s, step)
  {
    match step
    case Enqueue(id) =>
      if id == "" then s.(queueAll := true, queued := {}, owing := s.owing + 1)
      else s.(queued := if s.queueAll then s.queued else s.queued + {id}, owing := s.owing + 1)
    case EnqueueAll => s.(queueAll := true, queued := {}, owing := s.owing + 1)
    case Signal => s.(token := true, owing := s.owing - 1)
    case TakeToken => s.(token := false, worker := Woken)
    case Snapshot => s.(queueAll := false, queued := {}, worker := Working(s.queueAll, s.queued))
    case Finish => s.(worker := Idle)
  }

  predicate Pending(s: State) { s.queueAll || s.queued != {} }

  /** Work that waits has a token, an enqueuer about to signal, or a worker about to look. */
  predicate NoLostWakeUp(s: State) {
    && (Pending(s) ==> s.token || s.owing > 0 || s.worker.Woken?)
    && (s.queueAll ==> s.queued == {})
  }

  lemma StepKeepsWakeUp(s: State, step: Step)
    requires NoLostWakeUp(s) && Enabled(s, step)
    ensures NoLostWakeUp(After(s, step))
  {
  }

  /** states[i] --steps[i]--> states[i + 1], in any interleaving. */
  predicate Run(states: seq<State>, steps: seq<Step>) {
    && |states| == |steps| + 1 && states[0] == START
    && forall i | 0 <= i < |steps| :: RunAt(states, steps, i)
  }

  predicate RunAt(states: seq<State>, steps: seq<Step>, i: nat)
    requires |states| == |steps| + 1 && i < |steps|
  {
    Enabled(states[i], steps[i]) && states[i + 1] == After(states[i], steps[i])
  }

  lemma {:induction false} NoWakeUpIsLost(states: seq<State>, steps: seq<Step>, i: nat)
    requires Run(states, steps) && i < |states|
    ensures NoLostWakeUp(states[i])
  {
    if i > 0 {
      NoWakeUpIsLost(states, steps, i - 1);
      assert RunAt(states, steps, i - 1);
      StepKeepsWakeUp(states[i - 1], steps[i - 1]);
    }
  }

  /** Once every enqueuer has signalled, an idle worker without a token has nothing left to do. */
  lemma QuiescentMeansEmpty(states: seq<State>, steps: seq<Step>, i: nat)
    requires Run(states, steps) && i < |states|
    requires states[i].owing == 0 && states[i].worker.Idle? && !states[i].token
    ensures !Pending(states[i])
  {
    NoWakeUpIsLost(states, steps, i);
  }

  // ---- Coverage ----

  predicate Asks(step: Step, id: string) { step == Enqueue(id) || step == EnqueueAll || step == Enqueue("") }

  predicate Waits(s: State, id: string) { s.queueAll || id in s.queued }

  predicate Covers(s: State, id: string) { s.worker.Working? && (s.worker.all || id in s.worker.ids) }

  /** Until the worker looks, what was asked for waits. */
  lemma {:induction false} AskedWaits(states: seq<State>, steps: seq<Step>, i: nat, j: nat, id: string)
    requires Run(states, steps) && i < j < |states| && Asks(steps[i], id)
    requires forall k | i < k < j :: steps[k] != Snapshot
    ensures Waits(states[j], id)
  {
    assert RunAt(states, steps, j - 1);
    if j > i + 1 {
      AskedWaits(states, steps, i, j - 1, id);
    }
  }

  /** The first snapshot after an enqueue names the record or takes all. */
  lemma FirstSnapshotCovers(states: seq<State>, steps: seq<Step>, i: nat, j: nat, id: string)
    requires Run(states, steps) && i < j < |steps| && Asks(steps[i], id)
    requires steps[j] == Snapshot && forall k | i < k < j :: steps[k] != Snapshot
    ensures Covers(states[j + 1], id)
  {
    AskedWaits(states, steps, i, j, id);
    assert RunAt(states, steps, j);
  }

  predicate AsksAll(step: Step) { step == EnqueueAll || step == Enqueue("") }

  /** Step i is since the last snapshot before j. */
  predicate Fresh(steps: seq<Step>, i: nat, j: nat) { i < j <= |steps| && forall k | i < k < j :: steps[k] != Snapshot }

  ghost predicate AllAsked(steps: seq<Step>, j: nat) { exists i :: 0 <= i < j && Fresh(steps, i, j) && AsksAll(steps[i]) }

  ghost predicate OneAsked(steps: seq<Step>, j: nat, id: string) {
    id != "" && exists i :: 0 <= i < j && Fresh(steps, i, j) && steps[i] == Enqueue(id)
  }

  lemma AskedNext(steps: seq<Step>, j: nat, id: string)
    requires j < |steps|
    ensures AllAsked(steps, j + 1) <==> AsksAll(steps[j]) || (steps[j] != Snapshot && AllAsked(steps, j))
    ensures OneAsked(steps, j + 1, id) <==>
              (id != "" && steps[j] == Enqueue(id)) || (steps[j] != Snapshot && OneAsked(steps, j, id))
  {
    forall i | 0 <= i < j
      ensures Fresh(steps, i, j + 1) <==> Fresh(steps, i, j) && steps[j] != Snapshot
    {
    }
    assert Fresh(steps, j, j + 1);
  }

  /** Nothing waits but what was asked for since the last snapshot: everything if that was asked for, and otherwise exactly the
      records asked for. */
  lemma {:induction false} WaitsExactly(states: seq<State>, steps: seq<Step>, j: nat, id: string)
    requires Run(states, steps) && j < |states|
    ensures states[j].queueAll <==> AllAsked(steps, j)
    ensures id in states[j].queued <==> !AllAsked(steps, j) && OneAsked(steps, j, id)
  {
    if j > 0 {
      WaitsExactly(states, steps, j - 1, id);
      assert RunAt(states, steps, j - 1);
      AskedNext(steps, j - 1, id);
      hide AllAsked, OneAsked, Run;
    }
  }

  /** A snapshot takes everything, or exactly the records asked for since the one before. */
  lemma SnapshotTakesAsked(states: seq<State>, steps: seq<Step>, j: nat, id: string)
    requires Run(states, steps) && j < |steps| && steps[j] == Snapshot
    ensures states[j + 1].worker.Working? && !states[j + 1].queueAll && states[j + 1].queued == {}
    ensures states[j + 1].worker.all <==> AllAsked(steps, j)
    ensures id in states[j + 1].worker.ids <==> !AllAsked(steps, j) && OneAsked(steps, j, id)
  {
    WaitsExactly(states, steps, j, id);
    assert RunAt(states, steps, j);
    hide AllAsked, OneAsked, Run;
  }

  /** How far the worker is from its next snapshot, when something is pending. */
  function Distance(s: State): nat {
    match s.worker
    case Woken => 1
    case Idle => if s.token then 2 else 3
    case Working(_, _) => if s.token then 3 else 4
  }

  /** Whatever is pending, the steps of the worker and of the signalling enqueuers alone lead to a snapshot within
      four steps: there is always one enabled that brings it nearer, and none of them delays it. */
  lemma SnapshotIsNear(s: State)
    requires NoLostWakeUp(s) && Pending(s)
    ensures 1 <= Distance(s) <= 4
    ensures exists step :: step in {Signal, TakeToken, Snapshot, Finish} && Enabled(s, step)
              && (step == Snapshot || Distance(After(s, step)) < Distance(s))
    ensures forall step | step in {Signal, TakeToken, Finish} && Enabled(s, step) ::
              Pending(After(s, step)) && Distance(After(s, step)) <= Distance(s)
  {
    if s.worker.Woken? {
      assert Enabled(s, Snapshot);
    } else if s.worker.Working? {
      assert Enabled(s, Finish) && Distance(After(s, Finish)) < Distance(s);
    } else if s.token {
      assert Enabled(s, TakeToken) && Distance(After(s, TakeToken)) < Distance(s);
    } else {
      assert Enabled(s, Signal) && Distance(After(s, Signal)) < Distance(s);
    }
  }

  // ---- The object ----

  /** The queue fields of the reconciler; each method is one atomic section. */
  class Reconciler {
    var queueAll: bool
    var queued: set<string>
    var wake: bool
    var worker: Worker
    ghost var owing: nat

    ghost function View(): State
      reads this
    {
      State(queueAll, queued, wake, owing, worker)
    }

    constructor ()
      ensures View() == START
    {
      queueAll, queued, wake, worker, owing := false, {}, false, Idle, 0;
    }

    method AddToQueue(id: string)
      modifies this
      ensures View() == After(old(View()), Step.Enqueue(id))
    {
      if id == "" {
        AddAll();
        return;
      }
      if !queueAll {
        queued := queued + {id};
      }
      owing := owing + 1;
    }

    method AddAll()
      modifies this
      ensures View() == After(old(View()), Step.EnqueueAll)
    {
      queueAll := true;
      queued := {};
      owing := owing + 1;
    }

    /** A full channel is left as it is. */
    method SignalQueue()
      requires owing > 0
      modifies this
      ensures View() == After(old(View()), Signal)
    {
      if !wake {
        wake := true;
      }
      owing := owing - 1;
    }

    method TakeWake()
      requires wake && worker.Idle?
      modifies this
      ensures View() == After(old(View()), TakeToken)
    {
      wake := false;
      worker := Woken;
    }

    method TakeSnapshot() returns (all: bool, ids: seq<string>)
      requires worker.Woken?
      modifies this
      ensures View() == After(old(View()), Snapshot)
      ensures all == old(queueAll) && forall id :: id in ids <==> id in old(queued)
    {
      all := queueAll;
      queueAll := false;
      ids := [];
      var rest := queued;
      while rest != {}
        invariant rest <= queued && forall id :: id in ids <==> id in queued && id !in rest
        decreases rest
      {
        var id :| id in rest;
        ids := ids + [id];
        rest := rest - {id};
      }
      worker := Working(all, queued);
      queued := {};
    }
  }
}
