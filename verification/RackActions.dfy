/** What the rack status says about actions: how far they are, and when they started. */
module RackActions {
  import opened Options

  /** Seconds an action is given before it is looked at again. */
  const DELAY := 20

  datatype Progress = ToDo | Ongoing | Finalizing | Continue | Done | Configuring

  /** The operator still waits for an action to start. */
  predicate JustStarted(start: Option<int>, now: int) {
    start.Some? && start.value + DELAY > now
  }
}
