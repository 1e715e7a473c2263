/**
 Tasks made with asyncio.create_task whose coroutine starts with one sleep.

 A task is created, runs for the first time and goes to sleep, and wakes no earlier
 than its sleep allows.  Cancelling it at any moment before it has resumed from the
 sleep keeps everything after the sleep from running.
 */
module AsyncTasks {
  import opened Wrappers

  datatype Task = Created(delay: real) | Sleeping(wakeAt: real) | Resumed | Cancelled | Finished

  /** The part after the sleep may still run. */
  predicate Live(t: Task) {
    t.Created? || t.Sleeping?
  }

  /** task.cancel() guarded by "not task.done()". */
  function Cancel(tasks: seq<Task>, id: Option<nat>): (r: seq<Task>)
    ensures |r| == |tasks|
  {
    if id.Some? && id.value < |tasks| && !tasks[id.value].Finished?
    then tasks[id.value := Cancelled]
    else tasks
  }
}
