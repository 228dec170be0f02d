/** The queue's job states (packages/queue/src/types.js) and the product states shown to
    clients (packages/api/src/state-machine.js). */
module JobStates {

  datatype JobState = Queued | Running | Completed | Failed | Cancelled | TimedOut | ResourceLimit

  predicate IsTerminal(s: JobState) {
    s in {Completed, Failed, Cancelled, TimedOut, ResourceLimit}
  }

  predicate IsValidTransition(from: JobState, to: JobState) {
    if from == to then true
    else if IsTerminal(from) then false
    else if from == Queued then to in {Running, Cancelled, TimedOut}
    else to in {Completed, Failed, Cancelled, TimedOut, ResourceLimit, Queued}
  }

  datatype ProductState = PQueued | PLeased | PRunning | PSucceeded | PFailed | PTimedOut | PCancelled

  predicate IsTerminalProduct(s: ProductState) {
    s in {PSucceeded, PFailed, PTimedOut, PCancelled}
  }

  predicate IsValidProductTransition(from: ProductState, to: ProductState) {
    if from == to then true
    else if IsTerminalProduct(from) then false
    else match from
      case PQueued => to in {PLeased, PRunning, PCancelled, PTimedOut, PFailed}
      case PLeased => to in {PRunning, PQueued, PCancelled, PTimedOut, PFailed}
      case _ => to in {PSucceeded, PFailed, PTimedOut, PCancelled, PQueued}
  }

  function MapInternalToProduct(s: JobState): ProductState {
    match s
    case Queued => PQueued
    case Running => PRunning
    case Completed => PSucceeded
    case Failed => PFailed
    case TimedOut => PTimedOut
    case Cancelled => PCancelled
    case ResourceLimit => PFailed
  }

  /** The tables, pair by pair. */
  lemma TransitionsAre(s: JobState, t: JobState)
    ensures IsValidTransition(s, t) <==> s == t || (s, t) in {
              (Queued, Running), (Queued, Cancelled), (Queued, TimedOut),
              (Running, Queued), (Running, Completed), (Running, Failed), (Running, Cancelled), (Running, TimedOut), (Running, ResourceLimit)}
  {}

  lemma ProductTransitionsAre(s: ProductState, t: ProductState)
    ensures IsValidProductTransition(s, t) <==> s == t || (s, t) in {
              (PQueued, PLeased), (PQueued, PRunning), (PQueued, PCancelled), (PQueued, PTimedOut), (PQueued, PFailed),
              (PLeased, PQueued), (PLeased, PRunning), (PLeased, PCancelled), (PLeased, PTimedOut), (PLeased, PFailed),
              (PRunning, PQueued), (PRunning, PSucceeded), (PRunning, PFailed), (PRunning, PTimedOut), (PRunning, PCancelled)}
  {}

  /** The mapping tells running from ended states, and the states from one another but for the two kinds of failure. */
  lemma MappingIs(s: JobState, t: JobState)
    ensures (s, MapInternalToProduct(s)) in {
              (Queued, PQueued), (Running, PRunning), (Completed, PSucceeded), (Failed, PFailed), (Cancelled, PCancelled),
              (TimedOut, PTimedOut), (ResourceLimit, PFailed)}
    ensures IsTerminalProduct(MapInternalToProduct(s)) <==> IsTerminal(s)
    ensures MapInternalToProduct(s) == MapInternalToProduct(t) <==> s == t || (s in {Failed, ResourceLimit} && t in {Failed, ResourceLimit})
  {}

  /** A history of one job: the states it went through, oldest first. */
  ghost predicate IsPath(states: seq<JobState>) {
    forall i :: 0 < i < |states| ==> IsValidTransition(states[i - 1], states[i])
  }

  ghost predicate IsProductPath(states: seq<ProductState>) {
    forall i :: 0 < i < |states| ==> IsValidProductTransition(states[i - 1], states[i])
  }

  function MapPath(states: seq<JobState>): seq<ProductState> {
    seq(|states|, i requires 0 <= i < |states| => MapInternalToProduct(states[i]))
  }

  /** The queue's state machine is simulated by the product's one: no job history can make the
      API report an illegal product transition. */
  lemma PathMapsToProductPath(states: seq<JobState>)
    requires IsPath(states)
    ensures IsProductPath(MapPath(states))
  {
    forall i | 0 < i < |states|
      ensures IsValidProductTransition(MapPath(states)[i - 1], MapPath(states)[i])
    {
      assert IsValidTransition(states[i - 1], states[i]);
    }
  }

  /** Only the last state of a history may be terminal: nothing follows completion. */
  ghost predicate EndsOnce(states: seq<JobState>) {
    forall i :: 0 <= i < |states| - 1 ==> !IsTerminal(states[i])
  }
}
