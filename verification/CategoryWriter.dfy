/** The coalescing background writer of library categories: one pending slot, one worker, one lock. */
module CategoryProtocol {
  import opened Common

  /** Where a worker is: about to take the lock, saving, leaving after it found nothing, or a completed task. */
  datatype Phase<S> = AtLock | Saving(state: S) | Leaving | Completed

  /**
   * The shared fields (pending slot, task reference), the phases of all workers ever started, and the history:
   * every state queued, and the position of each state handed to a save.
   */
  datatype Writer<S> = Writer(pending: Option<S>, task: Option<nat>, workers: seq<Phase<S>>, queued: seq<S>,
                              handed: seq<nat>)

  datatype Event<S> =
    | Queue(state: S, savesAtOnce: bool)
    | SaveEnds(worker: nat)
    | SaveFaults(worker: nat)
    | TakeLock(worker: nat)
    | Leave(worker: nat)

  predicate Running<S>(phase: Phase<S>) {
    phase.AtLock? || phase.Saving?
  }

  predicate TaskIsRunning<S>(w: Writer<S>) {
    w.task.Some? && w.task.value < |w.workers| && !w.workers[w.task.value].Completed?
  }

  /** A worker inside the lock: it takes the pending state, or clears the task reference and leaves. */
  function Take<S>(w: Writer<S>, worker: nat): Writer<S>
    requires worker < |w.workers|
  {
    match w.pending
    case Some(state) =>
      w.(pending := None, workers := w.workers[worker := Saving(state)],
         handed := if w.queued == [] then w.handed else w.handed + [|w.queued| - 1])
    case None =>
      w.(task := None, workers := w.workers[worker := Leaving])
  }

  /** Starting a worker runs it, inside the caller's lock, up to its first save that does not end at once. */
  function Start<S>(w: Writer<S>, savesAtOnce: bool): Writer<S> {
    var worker := |w.workers|;
    var started := Take(w.(workers := w.workers + [AtLock]), worker);
    if savesAtOnce then
      var ended := Take(started.(workers := started.workers[worker := AtLock]), worker);
      ended.(workers := ended.workers[worker := Completed], task := Some(worker))
    else started.(task := Some(worker))
  }

  function Apply<S>(w: Writer<S>, e: Event<S>): Writer<S> {
    match e
    case Queue(state, savesAtOnce) =>
      var w' := w.(pending := Some(state), queued := w.queued + [state]);
      if TaskIsRunning(w') then w' else Start(w', savesAtOnce)
    case SaveEnds(worker) =>
      if worker < |w.workers| && w.workers[worker].Saving? then w.(workers := w.workers[worker := AtLock]) else w
    case SaveFaults(worker) =>
      if worker < |w.workers| && w.workers[worker].Saving? then w.(workers := w.workers[worker := Completed]) else w
    case TakeLock(worker) =>
      if worker < |w.workers| && w.workers[worker].AtLock? then Take(w, worker) else w
    case Leave(worker) =>
      if worker < |w.workers| && w.workers[worker].Leaving? then w.(workers := w.workers[worker := Completed]) else w
  }

  // ---- What holds after every event.

  ghost predicate Idle<S>(w: Writer<S>) {
    forall k | 0 <= k < |w.workers| :: !Running(w.workers[k])
  }

  ghost predicate OneWorker<S>(w: Writer<S>) {
    forall j, k | 0 <= j < k < |w.workers| :: !(Running(w.workers[j]) && Running(w.workers[k]))
  }

  /** States are handed to save in the order they were queued, none twice. */
  ghost predicate InOrder<S>(w: Writer<S>) {
    && (forall k | 0 <= k < |w.handed| :: w.handed[k] < |w.queued|)
    && (forall j, k | 0 <= j < k < |w.handed| :: w.handed[j] < w.handed[k])
  }

  function LastHanded<S>(w: Writer<S>): int {
    if w.handed == [] then -1 else w.handed[|w.handed| - 1]
  }

  ghost predicate Inv<S>(w: Writer<S>) {
    && OneWorker(w) && InOrder(w)
    // The task reference leads to the running worker, or to one that has completed.
    && (w.task.Some? ==> w.task.value < |w.workers| && !w.workers[w.task.value].Leaving?)
    && (forall k | 0 <= k < |w.workers| && Running(w.workers[k]) :: w.task == Some(k))
    // The slot holds the last queued state, which was not handed out; an empty slot means that it was.
    && (w.pending.Some? ==>
          w.queued != [] && w.pending.value == w.queued[|w.queued| - 1] && LastHanded(w) < |w.queued| - 1)
    && (w.pending.None? ==> LastHanded(w) == |w.queued| - 1)
    // What a worker is saving was handed out last.
    && (forall k | 0 <= k < |w.workers| && w.workers[k].Saving? ::
          w.handed != [] && w.workers[k].state == w.queued[LastHanded(w)])
  }

  /** No state waits in the slot without a worker. */
  ghost predicate NothingStranded<S>(w: Writer<S>) {
    w.pending.Some? ==> !Idle(w)
  }

  lemma TakeKeeps<S>(w: Writer<S>, worker: nat)
    requires Inv(w) && worker < |w.workers| && w.workers[worker].AtLock?
    ensures Inv(Take(w, worker)) && NothingStranded(Take(w, worker))
  {
    var w' := Take(w, worker);
    assert w'.workers[worker] != AtLock;
    if w.pending.Some? {
      assert Running(w'.workers[worker]);
    }
  }

  lemma StartKeeps<S>(w: Writer<S>, savesAtOnce: bool)
    requires Inv(w) && w.pending.Some? && Idle(w)
    ensures Inv(Start(w, savesAtOnce)) && NothingStranded(Start(w, savesAtOnce))
  {
    hide Take;
    var worker := |w.workers|;
    var created := w.(workers := w.workers + [AtLock], task := Some(worker));
    assert Inv(created);
    StartIsTake(w, savesAtOnce);
    TakeKeeps(created, worker);
    var started := Take(created, worker);
    TakePhase(created, worker);
    if savesAtOnce {
      var again := started.(workers := started.workers[worker := AtLock]);
      assert Inv(again);
      TakeKeeps(again, worker);
      TakePhase(again, worker);
      var ended := Take(again, worker);
      var done := ended.(workers := ended.workers[worker := Completed], task := Some(worker));
      assert Inv(done);
    }
  }

  lemma TakePhase<S>(w: Writer<S>, worker: nat)
    requires worker < |w.workers|
    ensures
      var w' := Take(w, worker);
      && |w'.workers| == |w.workers| && w'.queued == w.queued && w'.pending == None
      && (forall k | 0 <= k < |w.workers| && k != worker :: w'.workers[k] == w.workers[k])
      && (w.pending.Some? ==> w'.workers[worker] == Saving(w.pending.value) && w'.task == w.task)
      && (w.pending.None? ==> w'.workers[worker] == Leaving && w'.handed == w.handed && w'.task == None)
  {
  }

  /** Assigning the task reference before the worker starts, or after its first steps, makes no difference. */
  lemma StartIsTake<S>(w: Writer<S>, savesAtOnce: bool)
    requires w.pending.Some?
    ensures
      var worker := |w.workers|;
      var started := Take(w.(workers := w.workers + [AtLock], task := Some(worker)), worker);
      Start(w, savesAtOnce) ==
        if savesAtOnce then
          var ended := Take(started.(workers := started.workers[worker := AtLock]), worker);
          ended.(workers := ended.workers[worker := Completed], task := Some(worker))
        else started
  {
  }

  lemma QueueKeeps<S>(w: Writer<S>, state: S, savesAtOnce: bool)
    requires Inv(w)
    ensures Inv(Apply(w, Queue(state, savesAtOnce))) && NothingStranded(Apply(w, Queue(state, savesAtOnce)))
  {
    var w' := w.(pending := Some(state), queued := w.queued + [state]);
    assert Inv(w') by {
      assert forall k | 0 <= k < |w.queued| :: w'.queued[k] == w.queued[k];
    }
    if TaskIsRunning(w') {
      assert Running(w'.workers[w.task.value]);
    } else {
      StartKeeps(w', savesAtOnce);
    }
  }

  /** Every event keeps the protocol; only an uncaught failure can strand a pending state. */
  lemma StepKeeps<S>(w: Writer<S>, e: Event<S>)
    requires Inv(w)
    ensures Inv(Apply(w, e))
    ensures NothingStranded(w) && !e.SaveFaults? ==> NothingStranded(Apply(w, e))
  {
    hide Inv;
    match e
    case Queue(state, savesAtOnce) => QueueKeeps(w, state, savesAtOnce);
    case SaveEnds(worker) => SaveEndKeeps(w, worker);
    case SaveFaults(worker) => FaultKeeps(w, worker);
    case TakeLock(worker) =>
      if worker < |w.workers| && w.workers[worker].AtLock? {
        TakeKeeps(w, worker);
      }
    case Leave(worker) => LeaveKeeps(w, worker);
  }

  lemma FaultKeeps<S>(w: Writer<S>, worker: nat)
    requires Inv(w)
    ensures Inv(Apply(w, SaveFaults(worker)))
  {
  }

  lemma LeaveKeeps<S>(w: Writer<S>, worker: nat)
    requires Inv(w)
    ensures Inv(Apply(w, Leave(worker)))
    ensures NothingStranded(w) ==> NothingStranded(Apply(w, Leave(worker)))
  {
    assert forall k | 0 <= k < |w.workers| && Running(w.workers[k]) :: Running(Apply(w, Leave(worker)).workers[k]);
  }

  lemma SaveEndKeeps<S>(w: Writer<S>, worker: nat)
    requires Inv(w)
    ensures Inv(Apply(w, SaveEnds(worker)))
    ensures NothingStranded(w) ==> NothingStranded(Apply(w, SaveEnds(worker)))
  {
    if worker < |w.workers| && w.workers[worker].Saving? {
      assert Running(Apply(w, SaveEnds(worker)).workers[worker]);
    }
  }

  function Run<S>(w: Writer<S>, events: seq<Event<S>>): Writer<S>
    decreases |events|
  {
    if events == [] then w else Run(Apply(w, events[0]), events[1..])
  }

  function Initial<S>(): Writer<S> {
    Writer(None, None, [], [], [])
  }

  lemma {:induction false} RunKeeps<S>(w: Writer<S>, events: seq<Event<S>>)
    requires Inv(w)
    ensures Inv(Run(w, events))
    ensures NothingStranded(w) && (forall e | e in events :: !e.SaveFaults?) ==> NothingStranded(Run(w, events))
    decreases |events|
  {
    if events == [] {
      assert Run(w, events) == w;
    } else {
      StepKeeps(w, events[0]);
      RunKeeps(Apply(w, events[0]), events[1..]);
    }
  }

  // ---- Exactly when a state is stranded.

  /** An event that is an uncaught failure of the worker that is saving. */
  predicate Faults<S>(w: Writer<S>, e: Event<S>) {
    e.SaveFaults? && e.worker < |w.workers| && w.workers[e.worker].Saving?
  }

  /** A state waits and no worker will take it. */
  ghost predicate Stranded<S>(w: Writer<S>) {
    w.pending.Some? && Idle(w)
  }

  predicate NoneQueues<S>(events: seq<Event<S>>) {
    forall k | 0 <= k < |events| :: !events[k].Queue?
  }

  /** An uncaught failure ends the only worker, and strands a state if and only if one is waiting. */
  lemma FaultStrandsIff<S>(w: Writer<S>, e: Event<S>)
    requires Inv(w) && Faults(w, e)
    ensures Idle(Apply(w, e)) && (Stranded(Apply(w, e)) <==> w.pending.Some?)
  {
  }

  /** Without a worker and without a new state, nothing is taken out of the slot and nothing is handed to a save. */
  lemma IdleStep<S>(w: Writer<S>, e: Event<S>)
    requires Idle(w) && !e.Queue?
    ensures Idle(Apply(w, e)) && Apply(w, e).pending == w.pending && Apply(w, e).handed == w.handed
    ensures Apply(w, e).queued == w.queued
  {
  }

  lemma {:induction false} StaysStranded<S>(w: Writer<S>, events: seq<Event<S>>)
    requires Stranded(w) && NoneQueues(events)
    ensures Stranded(Run(w, events)) && Run(w, events).pending == w.pending && Run(w, events).handed == w.handed
    decreases |events|
  {
    if events == [] {
      assert Run(w, events) == w;
    } else {
      IdleStep(w, events[0]);
      StaysStranded(Apply(w, events[0]), events[1..]);
    }
  }

  /** The next state queued starts a worker, which is handed that newest state; the stranded one is lost. */
  lemma NextQueueRecovers<S>(w: Writer<S>, state: S, savesAtOnce: bool)
    requires Inv(w) && Stranded(w)
    ensures
      var w' := Apply(w, Queue(state, savesAtOnce));
      && !Stranded(w') && w'.pending.None? && w'.queued == w.queued + [state]
      && w'.handed == w.handed + [|w.queued|] && LastHanded(w') == |w'.queued| - 1
  {
    QueueKeeps(w, state, savesAtOnce);
    assert !TaskIsRunning(w);
  }

  /** Some event of the run fails uncaught while a state waits, and no later event queues another. */
  predicate StrandingFault<S>(w: Writer<S>, events: seq<Event<S>>)
    decreases |events|
  {
    && events != []
    && ((Faults(w, events[0]) && w.pending.Some? && NoneQueues(events[1..])) || StrandingFault(Apply(w, events[0]),
            events[1..]))
  }

  lemma StepStrandsIff<S>(w: Writer<S>, e: Event<S>)
    requires Inv(w)
    ensures Stranded(Apply(w, e)) <==> (Stranded(w) && !e.Queue?) || (Faults(w, e) && w.pending.Some?)
  {
    StepKeeps(w, e);
    if Faults(w, e) {
      FaultStrandsIff(w, e);
    } else if Stranded(w) && !e.Queue? {
      IdleStep(w, e);
    } else if Stranded(w) {
      NextQueueRecovers(w, e.state, e.savesAtOnce);
    } else if e.SaveFaults? {
      assert Apply(w, e) == w;
    }
  }

  lemma {:induction false} RunStrandsIff<S>(w: Writer<S>, events: seq<Event<S>>)
    requires Inv(w)
    ensures Stranded(Run(w, events)) <==> (Stranded(w) && NoneQueues(events)) || StrandingFault(w, events)
    decreases |events|
  {
    hide Inv, Stranded, Faults;
    if events == [] {
      assert Run(w, events) == w;
    } else {
      StepKeeps(w, events[0]);
      StepStrandsIff(w, events[0]);
      RunStrandsIff(Apply(w, events[0]), events[1..]);
      NoneQueuesSplit(events);
    }
  }

  lemma NoneQueuesSplit<S>(events: seq<Event<S>>)
    requires events != []
    ensures NoneQueues(events) <==> !events[0].Queue? && NoneQueues(events[1..])
  {
    assert forall k | 0 < k < |events| :: events[k] == events[1..][k - 1];
  }

  /**
   * For every interleaving: one worker at most, states handed out in queue order; and once no worker runs, the
   * last state handed to a save is the last one queued, unless exactly a save failed uncaught while a state waited
   * and none was queued after that.
   */
  lemma EveryInterleaving<S>(events: seq<Event<S>>)
    ensures
      var w := Run(Initial(), events);
      && OneWorker(w) && InOrder(w)
      && (Idle(w) ==> (LastHanded(w) == |w.queued| - 1 <==> !StrandingFault(Initial(), events)))
      && ((forall e | e in events :: !e.SaveFaults?) && Idle(w) ==> LastHanded(w) == |w.queued| - 1)
  {
    RunKeeps(Initial(), events);
    RunStrandsIff(Initial(), events);
  }

  /** Three events that strand the second state; the third state queued starts a worker again. */
  lemma FaultStrands<S>(first: S, second: S, third: S)
    ensures
      var stranded := Run(Initial(), [Queue(first, false), Queue(second, false), SaveFaults(0)]);
      && Idle(stranded) && LastHanded(stranded) == 0 && |stranded.queued| == 2
      && !Idle(Apply(stranded, Queue(third, false))) && LastHanded(Apply(stranded, Queue(third, false))) == 2
  {
    var stranded := Writer(Some(second), Some(0), [Completed], [first, second], [0]);
    assert Run(Initial(), [Queue(first, false), Queue(second, false), SaveFaults(0)]) == stranded by {
      StrandingRun(first, second);
    }
    assert Apply(stranded, Queue(third, false)).workers[1] == Saving(third);
  }

  lemma StrandingRun<S>(first: S, second: S)
    ensures Run(Initial(), [Queue(first, false), Queue(second, false), SaveFaults(0)])
         == Writer(Some(second), Some(0), [Completed], [first, second], [0])
  {
    var w: Writer<S> := Initial();
    var fault: seq<Event<S>> := [SaveFaults(0)];
    var later := [Queue(second, false)] + fault;
    assert [Queue(first, false), Queue(second, false), SaveFaults(0)] == [Queue(first, false)] + later;
    RunOne(w, Queue(first, false), later);
    var a := Writer(None, Some(0), [Saving(first)], [first], [0]);
    assert Apply(w, Queue(first, false)) == a;
    RunOne(a, Queue(second, false), fault);
    var b := Writer(Some(second), Some(0), [Saving(first)], [first, second], [0]);
    assert Apply(a, Queue(second, false)) == b;
    RunOne(b, SaveFaults(0), []);
    assert fault == [SaveFaults(0)] + [];
  }

  lemma RunOne<S>(w: Writer<S>, e: Event<S>, events: seq<Event<S>>)
    ensures Run(w, [e] + events) == Run(Apply(w, e), events)
  {
    assert ([e] + events)[1..] == events;
  }
}

/** The view model's two methods over its fields. */
module CategoryWriter {
  import opened Common
  import opened CategoryProtocol

  class ShellViewModel<S> {
    var pendingCategoryState: Option<S>
    var categoryPersistenceTask: Option<nat>
    var workers: seq<Phase<S>>
    ghost var queued: seq<S>
    ghost var handed: seq<nat>

    constructor ()
      ensures Protocol() == Initial() && Valid()
    {
      pendingCategoryState, categoryPersistenceTask, workers, queued, handed := None, None, [], [], [];
    }

    ghost function Protocol(): Writer<S>
      reads this
    {
      Writer(pendingCategoryState, categoryPersistenceTask, workers, queued, handed)
    }

    ghost predicate Valid()
      reads this
    {
      Inv(Protocol())
    }

    /** Called on the user interface's thread; does nothing before the categories are loaded. */
    method QueueCategoryPersistence(ready: bool, state: S, savesAtOnce: bool)
      requires Valid()
      modifies this
      ensures Valid()
      ensures Protocol() == if ready then Apply(old(Protocol()), Queue(state, savesAtOnce)) else old(Protocol())
    {
      if !ready {
        return;
      }
      StepKeeps(Protocol(), Queue(state, savesAtOnce));
      pendingCategoryState := Some(state);
      queued := queued + [state];
      if categoryPersistenceTask.Some? && !workers[categoryPersistenceTask.value].Completed? {
        return;
      }
      var worker := |workers|;
      workers := workers + [AtLock];
      TakePending(worker);
      if savesAtOnce {
        workers := workers[worker := AtLock];
        TakePending(worker);
        workers := workers[worker := Completed];
      }
      categoryPersistenceTask := Some(worker);
    }

    /** The locked part of the worker's loop. */
    method TakePending(worker: nat)
      requires worker < |workers|
      modifies this
      ensures Protocol() == Take(old(Protocol()), worker)
    {
      var state := pendingCategoryState;
      pendingCategoryState := None;
      if state.None? {
        categoryPersistenceTask := None;
        workers := workers[worker := Leaving];
        return;
      }
      workers := workers[worker := Saving(state.value)];
      handed := if queued == [] then handed else handed + [|queued| - 1];
    }

    /** One step of the worker, between two points where other threads may run. */
    method PersistQueuedCategoryStateStep(worker: nat)
      requires Valid() && worker < |workers|
      modifies this
      ensures Valid()
      ensures Protocol() ==
                match old(workers)[worker]
                case AtLock => Apply(old(Protocol()), TakeLock(worker))
                case Saving(_) => Apply(old(Protocol()), SaveEnds(worker))
                case Leaving => Apply(old(Protocol()), Leave(worker))
                case Completed => old(Protocol())
    {
      match workers[worker]
      case AtLock =>
        StepKeeps(Protocol(), TakeLock(worker));
        TakePending(worker);
      case Saving(_) =>
        StepKeeps(Protocol(), SaveEnds(worker));
        workers := workers[worker := AtLock];
      case Leaving =>
        StepKeeps(Protocol(), Leave(worker));
        workers := workers[worker := Completed];
      case Completed =>
    }
  }
}
