/** TaskExecutor.TaskConsumer: one run of a queued task, as the sequence of
    calls it makes on the task registry, the statistics and the latch. Which
    call (if any) throws is a parameter; a throwing call leaves no event. */
module TaskExecutor {
  import opened Wrappers

  const MAX_ATTEMPT_COUNT := 3

  datatype TaskStatus = PENDING | IN_PROGRESS | COMPLETE | FAILED

  datatype Task = Task(guid: string, taskType: string, status: TaskStatus, attemptCount: int)

  /** A completed call. */
  datatype Event =
    | Increment        // statistics.increment(1)
    | InProgress       // registry.inProgress
    | RunTask          // the task's own run
    | Complete         // registry.complete
    | SuccessPrint     // statistics.successPrint
    | UpdateStatus     // registry.updateStatus, on failure
    | StatError        // statistics.error
    | Commit           // registry.commit
    | CountDown        // latch.countDown

  /** The call of the try block that throws, in the order the run makes
      them. */
  datatype FailPoint = AtGetVertex | AtCreate | AtInProgress | AtRun | AtComplete | AtSuccessPrint

  /** Which calls throw: at most one call of the try block, and besides it
      `registry.updateStatus` in the catch clause and `registry.commit` in
      the finally block. */
  datatype Faults = Faults(body: Option<FailPoint>, updateStatus: bool, commit: bool)

  const NO_FAULTS := Faults(None, false, false)

  /** The calls of `performTask` in order. */
  const PERFORM_STEPS: seq<Event> := [InProgress, RunTask, Complete, SuccessPrint]

  /** How many of PERFORM_STEPS complete before the failing call. */
  function StepsBefore(fail: Option<FailPoint>): (n: nat)
    ensures n <= |PERFORM_STEPS|
    ensures n == |PERFORM_STEPS| <==> fail.None?
  {
    match fail
    case None => 4
    case Some(AtGetVertex) => 0
    case Some(AtCreate) => 0
    case Some(AtInProgress) => 0
    case Some(AtRun) => 1
    case Some(AtComplete) => 2
    case Some(AtSuccessPrint) => 3
  }

  /** `performTask`: nothing without a factory for the type; otherwise the
      steps before the failing call. */
  function PerformTask(t: Task, factories: set<string>, fail: Option<FailPoint>): (r: seq<Event>)
    ensures t.taskType !in factories ==> r == []
    ensures |r| <= |PERFORM_STEPS| && r == PERFORM_STEPS[..|r|]
    ensures t.taskType in factories ==> (r == PERFORM_STEPS <==> fail.None?)
    ensures Complete in r ==> fail.None? || fail == Some(AtSuccessPrint)
  {
    if t.taskType !in factories then [] else PERFORM_STEPS[..StepsBefore(fail)]
  }

  /** Whether the failing call of the try block is reached: the vertex
      lookup always is; the others only for a task under the attempt limit
      with a factory. */
  predicate BodyThrows(t: Task, factories: set<string>, fail: Option<FailPoint>) {
    fail == Some(AtGetVertex) || (fail.Some? && t.attemptCount < MAX_ATTEMPT_COUNT && t.taskType in factories)
  }

  /** `TaskConsumer.run` for a possibly absent task. `hasVertex` and the
      task's status are only logged. A throwing `updateStatus` skips
      `statistics.error`; a throwing `commit` skips `latch.countDown`, and
      either exception leaves `run`. */
  function Run(task: Option<Task>, hasVertex: bool, factories: set<string>, faults: Faults): (r: seq<Event>)
    ensures task.None? ==> r == [CountDown]
    ensures CountDown in r <==> task.None? || !faults.commit
    ensures CountDown in r ==> r[|r| - 1] == CountDown && CountDown !in r[..|r| - 1]
    ensures Commit in r <==> task.Some? && !faults.commit
    ensures StatError in r <==> task.Some? && BodyThrows(task.value, factories, faults.body) && !faults.updateStatus
    ensures UpdateStatus in r <==> StatError in r
    ensures task.Some? && task.value.attemptCount >= MAX_ATTEMPT_COUNT && faults.body != Some(AtGetVertex)
            ==> r == [Increment] + (if faults.commit then [] else [Commit, CountDown])
  {
    match task
    case None => [CountDown]
    case Some(t) =>
      var tried :=
        if faults.body == Some(AtGetVertex) then []
        else if t.attemptCount >= MAX_ATTEMPT_COUNT then [Increment]
        else [Increment] + PerformTask(t, factories, faults.body);
      var caught := if BodyThrows(t, factories, faults.body) && !faults.updateStatus then [UpdateStatus, StatError] else [];
      var closed := if faults.commit then [] else [Commit, CountDown];
      RunShape(tried, caught, closed);
      tried + caught + closed
  }

  /** Where the events of a run's three parts end up. */
  lemma RunShape(tried: seq<Event>, caught: seq<Event>, closed: seq<Event>)
    requires forall x :: x in tried ==> x in PERFORM_STEPS || x == Increment
    requires caught == [] || caught == [UpdateStatus, StatError]
    requires closed == [] || closed == [Commit, CountDown]
    ensures var r := tried + caught + closed;
      && (forall x :: x in r <==> x in tried || x in caught || x in closed)
      && (CountDown in r ==> r[|r| - 1] == CountDown && CountDown !in r[..|r| - 1])
  {
    var r := tried + caught + closed;
    if closed != [] {
      assert r[..|r| - 1] == tried + caught + [Commit];
    }
  }

  /** The status the task was read with and whether its vertex was found
      never change what the run does. */
  lemma StatusAndVertexOnlyLogged(t: Task, s: TaskStatus, hasVertex: bool, factories: set<string>, faults: Faults)
    ensures Run(Some(t.(status := s)), hasVertex, factories, faults) == Run(Some(t), true, factories, faults)
  {
  }

  /** A run that reaches `complete` did `inProgress`, then the task, then
      `complete`, in that order, after counting the attempt. */
  lemma CompleteFollowsProgress(t: Task, hasVertex: bool, factories: set<string>, faults: Faults)
    requires Complete in Run(Some(t), hasVertex, factories, faults)
    ensures Run(Some(t), hasVertex, factories, faults)[..4] == [Increment, InProgress, RunTask, Complete]
    ensures t.attemptCount < MAX_ATTEMPT_COUNT && t.taskType in factories
  {
  }

  /** A run that throws after the attempt was counted never completes
      unless the throw comes after `complete`; the failure is recorded
      (updateStatus, then statistics.error) unless `updateStatus` throws
      too, and the latch is counted down unless `commit` throws. */
  lemma FailureIsRecorded(t: Task, hasVertex: bool, factories: set<string>, f: FailPoint, updateStatusThrows: bool, commitThrows: bool)
    requires t.attemptCount < MAX_ATTEMPT_COUNT && t.taskType in factories
    ensures var r := Run(Some(t), hasVertex, factories, Faults(Some(f), updateStatusThrows, commitThrows));
      Complete in r <==> f == AtSuccessPrint
    ensures var r := Run(Some(t), hasVertex, factories, Faults(Some(f), updateStatusThrows, commitThrows));
      r == FailedPrefix(f) + (if updateStatusThrows then [] else [UpdateStatus, StatError])
                           + (if commitThrows then [] else [Commit, CountDown])
  {
    var faults := Faults(Some(f), updateStatusThrows, commitThrows);
    var caught := if updateStatusThrows then [] else [UpdateStatus, StatError];
    var closed := if commitThrows then [] else [Commit, CountDown];
    FailedRunShape(t, hasVertex, factories, faults);
    RunShape(FailedPrefix(f), caught, closed);
  }

  /** The calls a failing run completes before its catch clause. */
  function FailedPrefix(f: FailPoint): seq<Event> {
    match f
    case AtGetVertex => []
    case AtCreate => [Increment]
    case AtInProgress => [Increment]
    case AtRun => [Increment, InProgress]
    case AtComplete => [Increment, InProgress, RunTask]
    case AtSuccessPrint => [Increment, InProgress, RunTask, Complete]
  }

  lemma FailedRunShape(t: Task, hasVertex: bool, factories: set<string>, faults: Faults)
    requires t.attemptCount < MAX_ATTEMPT_COUNT && t.taskType in factories && faults.body.Some?
    ensures Run(Some(t), hasVertex, factories, faults)
         == FailedPrefix(faults.body.value) + (if faults.updateStatus then [] else [UpdateStatus, StatError])
                                            + (if faults.commit then [] else [Commit, CountDown])
  {
    var f := faults.body.value;
    var p := PerformTask(t, factories, faults.body);
    if f != AtGetVertex {
      assert p == FailedPrefix(f)[1..];
      assert [Increment] + p == FailedPrefix(f);
    }
  }

  /** A throwing `commit` leaves the latch where it was, whatever else
      happened: the waiter is never released by this run. */
  lemma CommitFailureSkipsCountDown(t: Task, hasVertex: bool, factories: set<string>, faults: Faults)
    requires faults.commit
    ensures CountDown !in Run(Some(t), hasVertex, factories, faults)
    ensures Commit !in Run(Some(t), hasVertex, factories, faults)
  {
  }

  /** A run without failure on a fresh task with a factory makes exactly
      this sequence of calls. */
  lemma SuccessfulRun(t: Task, hasVertex: bool, factories: set<string>)
    requires t.attemptCount < MAX_ATTEMPT_COUNT && t.taskType in factories
    ensures Run(Some(t), hasVertex, factories, NO_FAULTS)
         == [Increment, InProgress, RunTask, Complete, SuccessPrint, Commit, CountDown]
  {
  }
}
