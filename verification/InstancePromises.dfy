/**
 The instance-promise protocol. A claim owned by a node pool is handed to a goroutine that
 waits on the promise, waits for the claim to be launched, and on failure cleans up the
 instance and deletes the claim; a standalone claim is handled by the caller itself. The
 goroutines interleave freely, and any of their calls may panic.

 Each task carries the acts it performed, in order, so that statements about every run are
 statements about the `did` of every task in every reachable state.
 */
module InstancePromises {

  type Id = nat

  datatype Reason = ClaimGone | LaunchKnown | Cancelled

  datatype Act =
    | Waited(failed: bool)        // the promise's Wait returned
    | LaunchWaitEnded(why: Reason)
    | CleanupAttempted(ok: bool)
    | DeleteAttempted(ok: bool)

  datatype Pc =
    | Waiting                     // in the promise's Wait
    | Polling                     // about to read the claim
    | Sleeping                    // between two reads
    | Reacting                    // in the error handler, before cleanup returns
    | Deleting                    // about to delete the claim
    | Returning                   // body over, deferred calls still to run
    | Unwinding                   // panicking, deferred calls still to run
    | Ended(panicked: bool)       // deferred WaitGroup.Done ran
    | Returned(failed: bool)      // standalone: the call returned to its caller
    | Escaped                     // standalone: the panic went on to the caller

  datatype Task = Task(standalone: bool, pc: Pc, did: seq<Act>)

  datatype State = State(waitGroup: int, tasks: map<Id, Task>)

  datatype Read = NotFound | OtherError | Claim(launchKnown: bool)

  datatype Step =
    | Begin(id: Id, standalone: bool)
    | WaitReturns(id: Id, failed: bool)
    | Poll(id: Id, read: Read)
    | Wake(id: Id)
    | Cancel(id: Id)
    | Cleanup(id: Id, ok: bool)
    | Delete(id: Id, ok: bool)
    | Panic(id: Id)
    | Finish(id: Id)

  /** Code of the body that can still run, and so panic. */
  predicate InBody(pc: Pc) {
    pc.Waiting? || pc.Polling? || pc.Sleeping? || pc.Reacting? || pc.Deleting? || pc.Returning?
  }

  predicate At(s: State, id: Id, standalone: bool, pc: Pc) {
    id in s.tasks && s.tasks[id].standalone == standalone && s.tasks[id].pc == pc
  }

  predicate Enabled(s: State, step: Step) {
    match step
    case Begin(id, _) => id !in s.tasks
    case WaitReturns(id, _) => id in s.tasks && s.tasks[id].pc == Waiting
    case Poll(id, _) => At(s, id, false, Polling)
    case Wake(id) => At(s, id, false, Sleeping)
    case Cancel(id) => At(s, id, false, Sleeping)
    case Cleanup(id, _) => id in s.tasks && s.tasks[id].pc == Reacting
    case Delete(id, _) => At(s, id, false, Deleting)
    case Panic(id) => id in s.tasks && InBody(s.tasks[id].pc)
    case Finish(id) => At(s, id, false, Returning) || At(s, id, false, Unwinding)
  }

  function Move(s: State, id: Id, pc: Pc, acts: seq<Act>): State
    requires id in s.tasks
  {
    s.(tasks := s.tasks[id := s.tasks[id].(pc := pc, did := s.tasks[id].did + acts)])
  }

  /** Where a goroutine goes once the launched-wait is over. */
  function AfterLaunchWait(s: State, id: Id, why: Reason): State
    requires id in s.tasks
  {
    Move(s, id, if Waited(true) in s.tasks[id].did then Reacting else Returning, [LaunchWaitEnded(why)])
  }

  function Apply(s: State, step: Step): State
    requires Enabled(s, step)
  {
    match step
    case Begin(id, standalone) =>
      // Only the asynchronous branch counts in the wait group, before its goroutine starts.
      State(if standalone then s.waitGroup else s.waitGroup + 1, s.tasks[id := Task(standalone, Waiting, [])])
    case WaitReturns(id, failed) =>
      if !s.tasks[id].standalone then Move(s, id, Polling, [Waited(failed)])
      else Move(s, id, if failed then Reacting else Returned(false), [Waited(failed)])
    case Poll(id, read) =>
      if read == NotFound then AfterLaunchWait(s, id, ClaimGone)
      else if read == Claim(true) then AfterLaunchWait(s, id, LaunchKnown)
      else Move(s, id, Sleeping, [])
    case Wake(id) => Move(s, id, Polling, [])
    case Cancel(id) => AfterLaunchWait(s, id, Cancelled)
    case Cleanup(id, ok) =>
      Move(s, id, if s.tasks[id].standalone then Returned(true) else Deleting, [CleanupAttempted(ok)])
    case Delete(id, ok) => Move(s, id, Returning, [DeleteAttempted(ok)])
    case Panic(id) => Move(s, id, if s.tasks[id].standalone then Escaped else Unwinding, [])
    case Finish(id) => Move(s.(waitGroup := s.waitGroup - 1), id, Ended(s.tasks[id].pc == Unwinding), [])
  }

  predicate IsRun(steps: seq<Step>)
    decreases |steps|, 0
  {
    steps == [] || (IsRun(steps[..|steps| - 1]) && Enabled(Run(steps[..|steps| - 1]), steps[|steps| - 1]))
  }

  function Run(steps: seq<Step>): State
    requires IsRun(steps)
    decreases |steps|, 1
  {
    if steps == [] then State(0, map[]) else Apply(Run(steps[..|steps| - 1]), steps[|steps| - 1])
  }

  // ----- The wait group -----

  predicate IsUnfinished(t: Task) {
    !t.standalone && !t.pc.Ended?
  }

  /** Goroutines started and not ended, panicking ones included. */
  function Unfinished(s: State): set<Id> {
    set id | id in s.tasks && IsUnfinished(s.tasks[id])
  }

  predicate Counted(s: State) {
    s.waitGroup == |Unfinished(s)|
  }

  /** All steps but the first and the last of a goroutine leave the counter and the unfinished set alone. */
  lemma InnerStepKeepsCount(s: State, step: Step)
    requires Enabled(s, step) && !step.Begin? && !step.Finish?
    ensures var t := Apply(s, step);
      && t.waitGroup == s.waitGroup && step.id in s.tasks && step.id in t.tasks
      && t.tasks == s.tasks[step.id := t.tasks[step.id]]
      && IsUnfinished(t.tasks[step.id]) == IsUnfinished(s.tasks[step.id])
  {
  }

  lemma BeginCounted(s: State, id: Id, standalone: bool)
    requires id !in s.tasks && Counted(s)
    ensures Counted(Apply(s, Begin(id, standalone)))
  {
    var t := Apply(s, Begin(id, standalone));
    assert Unfinished(t) == if standalone then Unfinished(s) else Unfinished(s) + {id};
  }

  lemma FinishCounted(s: State, id: Id)
    requires Enabled(s, Finish(id)) && Counted(s)
    ensures Counted(Apply(s, Finish(id)))
  {
    assert id in Unfinished(s);
    assert Unfinished(Apply(s, Finish(id))) == Unfinished(s) - {id};
  }

  lemma StepCounted(s: State, step: Step)
    requires Enabled(s, step) && Counted(s)
    ensures Counted(Apply(s, step))
  {
    if step.Begin? {
      BeginCounted(s, step.id, step.standalone);
    } else if step.Finish? {
      FinishCounted(s, step.id);
    } else {
      InnerStepKeepsCount(s, step);
      assert Unfinished(Apply(s, step)) == Unfinished(s);
    }
  }

  // ----- What a task may have done -----

  /** Body of a goroutine, up to some point: success stops after the launched-wait. */
  predicate AsyncPath(d: seq<Act>) {
    && |d| <= 4
    && (|d| > 0 ==> d[0].Waited?)
    && (|d| > 1 ==> d[1].LaunchWaitEnded?)
    && (|d| > 2 ==> d[0].failed && d[2].CleanupAttempted?)
    && (|d| > 3 ==> d[3].DeleteAttempted?)
  }

  /** Body of the synchronous branch, up to some point. */
  predicate SyncPath(d: seq<Act>) {
    && |d| <= 2
    && (|d| > 0 ==> d[0].Waited?)
    && (|d| > 1 ==> d[0].failed && d[1].CleanupAttempted?)
  }

  /** The whole body ran: two acts after a successful wait, four after a failed one. */
  predicate Complete(d: seq<Act>) {
    |d| == 4 || (|d| == 2 && d[0].Waited? && !d[0].failed)
  }

  /** The acts match the program counter. */
  predicate Consistent(t: Task) {
    var d := t.did;
    if t.standalone then
      && SyncPath(d)
      && match t.pc
         case Waiting => d == []
         case Reacting => |d| == 1 && d[0].failed
         case Returned(failed) => |d| == (if failed then 2 else 1) && d[0].failed == failed
         case Escaped => true
         case _ => false
    else
      && AsyncPath(d)
      && match t.pc
         case Waiting => d == []
         case Polling => |d| == 1
         case Sleeping => |d| == 1
         case Reacting => |d| == 2 && d[0].failed
         case Deleting => |d| == 3
         case Returning => Complete(d)
         case Unwinding => true
         case Ended(panicked) => panicked || Complete(d)
         case _ => false
  }

  predicate AllConsistent(s: State) {
    forall id :: id in s.tasks ==> Consistent(s.tasks[id])
  }

  lemma StepConsistent(s: State, step: Step)
    requires Enabled(s, step) && AllConsistent(s)
    ensures AllConsistent(Apply(s, step))
  {
    var t, id := Apply(s, step), step.id;
    assert !step.Begin? ==> Consistent(s.tasks[id]);
    assert Consistent(t.tasks[id]);
  }

  lemma {:induction false} RunKeepsInvariants(steps: seq<Step>)
    requires IsRun(steps)
    ensures Counted(Run(steps)) && AllConsistent(Run(steps))
  {
    if steps != [] {
      var front, last := steps[..|steps| - 1], steps[|steps| - 1];
      RunKeepsInvariants(front);
      StepCounted(Run(front), last);
      StepConsistent(Run(front), last);
    }
  }

  // ----- What holds in every run -----

  /** `WaitForInstancePromises` returns once the counter is zero. */
  predicate WaitMayReturn(s: State) {
    s.waitGroup == 0
  }

  /** The wait group never goes negative, and is zero exactly when every goroutine has ended, panicking or not. */
  lemma WaitReturnsOnlyWhenAllEnded(steps: seq<Step>)
    requires IsRun(steps)
    ensures var s := Run(steps);
      && s.waitGroup >= 0
      && (WaitMayReturn(s) <==> forall id :: id in s.tasks && !s.tasks[id].standalone ==> s.tasks[id].pc.Ended?)
  {
    RunKeepsInvariants(steps);
    var s := Run(steps);
    assert WaitMayReturn(s) <==> Unfinished(s) == {};
    if Unfinished(s) == {} {
      forall id | id in s.tasks && !s.tasks[id].standalone ensures s.tasks[id].pc.Ended? {
        assert id !in Unfinished(s);
      }
    } else {
      var id :| id in Unfinished(s);
      assert !s.tasks[id].pc.Ended?;
    }
  }

  predicate Cleaned(d: seq<Act>) {
    exists i :: 0 <= i < |d| && d[i].CleanupAttempted?
  }

  predicate Deleted(d: seq<Act>) {
    exists i :: 0 <= i < |d| && d[i].DeleteAttempted?
  }

  lemma PathFacts(t: Task)
    requires Consistent(t)
    ensures Deleted(t.did) ==> !t.standalone && |t.did| == 4
    ensures |t.did| > 0 && t.did[0] == Waited(false) ==> !Cleaned(t.did) && !Deleted(t.did)
    ensures forall i, j :: 0 <= i < j < |t.did| && t.did[i].CleanupAttempted? ==> !t.did[j].CleanupAttempted?
  {
    var d := t.did;
    assert |d| <= 4;
    if Deleted(d) {
      var i :| 0 <= i < |d| && d[i].DeleteAttempted?;
      assert i == 3;
    }
  }

  /**
   A claim is deleted only by a goroutine whose wait failed, after the launched-wait ended
   and after exactly one cleanup attempt, in that order; nothing follows.
   */
  lemma DeletionIsEarned(steps: seq<Step>, id: Id)
    requires IsRun(steps)
    requires id in Run(steps).tasks && Deleted(Run(steps).tasks[id].did)
    ensures var t := Run(steps).tasks[id];
      && !t.standalone && |t.did| == 4
      && t.did[0] == Waited(true) && t.did[1].LaunchWaitEnded?
      && t.did[2].CleanupAttempted? && t.did[3].DeleteAttempted?
  {
    RunKeepsInvariants(steps);
    PathFacts(Run(steps).tasks[id]);
  }

  /** A successful wait never leads to cleanup or deletion, and cleanup is never attempted twice. */
  lemma SuccessIsLeftAlone(steps: seq<Step>, id: Id)
    requires IsRun(steps) && id in Run(steps).tasks
    ensures var d := Run(steps).tasks[id].did;
      && (|d| > 0 && d[0] == Waited(false) ==> !Cleaned(d) && !Deleted(d))
      && forall i, j :: 0 <= i < j < |d| && d[i].CleanupAttempted? ==> !d[j].CleanupAttempted?
  {
    RunKeepsInvariants(steps);
    PathFacts(Run(steps).tasks[id]);
  }

  lemma CompleteFacts(d: seq<Act>)
    requires AsyncPath(d) && Complete(d)
    ensures d[0].Waited? && (d[0].failed <==> Cleaned(d)) && (d[0].failed <==> Deleted(d))
  {
    if |d| == 4 {
      assert d[2].CleanupAttempted? && d[3].DeleteAttempted?;
    }
  }

  /** A goroutine that ends without panicking has cleaned up, and deleted the claim, exactly if its wait failed. */
  lemma FailureIsCleanedUp(steps: seq<Step>, id: Id)
    requires IsRun(steps) && id in Run(steps).tasks && Run(steps).tasks[id].pc == Ended(false)
    ensures var d := Run(steps).tasks[id].did;
      |d| > 0 && d[0].Waited? && (d[0].failed <==> Cleaned(d)) && (d[0].failed <==> Deleted(d))
  {
    RunKeepsInvariants(steps);
    assert Consistent(Run(steps).tasks[id]);
    CompleteFacts(Run(steps).tasks[id].did);
  }

  lemma SyncFacts(t: Task)
    requires Consistent(t) && t.standalone
    ensures !Deleted(t.did)
    ensures t.pc == Returned(true) ==> |t.did| == 2 && t.did[0] == Waited(true) && t.did[1].CleanupAttempted?
    ensures t.pc == Returned(false) ==> t.did == [Waited(false)]
    ensures t.pc.Returned? || t.pc.Waiting? || t.pc.Reacting? || t.pc.Escaped?
  {
  }

  /** A standalone claim is never deleted here; its call reports failure exactly after a failed wait and one cleanup. */
  lemma StandaloneIsSynchronous(steps: seq<Step>, id: Id)
    requires IsRun(steps) && id in Run(steps).tasks && Run(steps).tasks[id].standalone
    ensures var t := Run(steps).tasks[id];
      && !Deleted(t.did)
      && (t.pc == Returned(true) ==> |t.did| == 2 && t.did[0] == Waited(true) && t.did[1].CleanupAttempted?)
      && (t.pc == Returned(false) ==> t.did == [Waited(false)])
      && (t.pc.Returned? || t.pc.Waiting? || t.pc.Reacting? || t.pc.Escaped?)
  {
    RunKeepsInvariants(steps);
    SyncFacts(Run(steps).tasks[id]);
  }

  // ----- The same, told from the run -----

  /** What a step does on behalf of a task. Reads that settle nothing do not count. */
  function ActOf(step: Step, id: Id): seq<Act> {
    if step.id != id then []
    else
      match step
      case WaitReturns(_, failed) => [Waited(failed)]
      case Poll(_, NotFound) => [LaunchWaitEnded(ClaimGone)]
      case Poll(_, Claim(true)) => [LaunchWaitEnded(LaunchKnown)]
      case Cancel(_) => [LaunchWaitEnded(Cancelled)]
      case Cleanup(_, ok) => [CleanupAttempted(ok)]
      case Delete(_, ok) => [DeleteAttempted(ok)]
      case _ => []
  }

  /** What the run has done for a task, in order. */
  function ActsOf(steps: seq<Step>, id: Id): seq<Act> {
    if steps == [] then [] else ActsOf(steps[..|steps| - 1], id) + ActOf(steps[|steps| - 1], id)
  }

  lemma StepActs(s: State, step: Step, id: Id)
    requires Enabled(s, step)
    ensures id in Apply(s, step).tasks <==> id in s.tasks || step.id == id
    ensures id in s.tasks ==> Apply(s, step).tasks[id].did == s.tasks[id].did + ActOf(step, id)
    ensures id !in s.tasks ==> ActOf(step, id) == [] && (step.id == id ==> Apply(s, step).tasks[id].did == [])
  {
  }

  /** A task's record is what the run did for it. */
  lemma {:induction false} RecordFollowsRun(steps: seq<Step>, id: Id)
    requires IsRun(steps)
    ensures if id in Run(steps).tasks then Run(steps).tasks[id].did == ActsOf(steps, id) else ActsOf(steps, id) == []
  {
    if steps != [] {
      var front, last := steps[..|steps| - 1], steps[|steps| - 1];
      RecordFollowsRun(front, id);
      StepActs(Run(front), last, id);
    }
  }

  lemma {:induction false} ActComesFromStep(steps: seq<Step>, id: Id, act: Act, step: Step)
    requires forall s :: act in ActOf(s, id) <==> s == step
    ensures act in ActsOf(steps, id) <==> step in steps
  {
    if steps != [] {
      var front, last := steps[..|steps| - 1], steps[|steps| - 1];
      ActComesFromStep(front, id, act, step);
      assert steps == front + [last];
    }
  }

  /** Waits, cleanups and deletions on record are those of the run. */
  lemma ActsAreSteps(steps: seq<Step>, id: Id)
    ensures forall failed :: Waited(failed) in ActsOf(steps, id) <==> WaitReturns(id, failed) in steps
    ensures forall ok :: CleanupAttempted(ok) in ActsOf(steps, id) <==> Cleanup(id, ok) in steps
    ensures forall ok :: DeleteAttempted(ok) in ActsOf(steps, id) <==> Delete(id, ok) in steps
  {
    forall b: bool
      ensures Waited(b) in ActsOf(steps, id) <==> WaitReturns(id, b) in steps
      ensures CleanupAttempted(b) in ActsOf(steps, id) <==> Cleanup(id, b) in steps
      ensures DeleteAttempted(b) in ActsOf(steps, id) <==> Delete(id, b) in steps
    {
      ActComesFromStep(steps, id, Waited(b), WaitReturns(id, b));
      ActComesFromStep(steps, id, CleanupAttempted(b), Cleanup(id, b));
      ActComesFromStep(steps, id, DeleteAttempted(b), Delete(id, b));
    }
  }

  lemma CompleteActs(d: seq<Act>)
    requires AsyncPath(d) && Complete(d)
    ensures Waited(true) in d <==> Waited(false) !in d
    ensures Waited(true) in d <==> exists ok :: CleanupAttempted(ok) in d
    ensures Waited(true) in d <==> exists ok :: DeleteAttempted(ok) in d
  {
    if |d| == 4 {
      assert d == [Waited(true), LaunchWaitEnded(d[1].why), CleanupAttempted(d[2].ok), DeleteAttempted(d[3].ok)];
      assert CleanupAttempted(d[2].ok) in d && DeleteAttempted(d[3].ok) in d;
    } else {
      assert d == [Waited(false), LaunchWaitEnded(d[1].why)];
    }
  }

  lemma EndedIsComplete(steps: seq<Step>, id: Id)
    requires IsRun(steps) && id in Run(steps).tasks && Run(steps).tasks[id].pc == Ended(false)
    ensures AsyncPath(ActsOf(steps, id)) && Complete(ActsOf(steps, id))
  {
    RunKeepsInvariants(steps);
    RecordFollowsRun(steps, id);
    assert Consistent(Run(steps).tasks[id]);
  }

  /**
   When a goroutine has ended without panicking, its promise returned, and the instance was
   cleaned up and the claim deleted in the run if and only if the promise returned an error.
   */
  lemma EndedMeansHandled(steps: seq<Step>, id: Id)
    requires IsRun(steps) && id in Run(steps).tasks && Run(steps).tasks[id].pc == Ended(false)
    ensures WaitReturns(id, true) in steps <==> WaitReturns(id, false) !in steps
    ensures WaitReturns(id, true) in steps <==> exists ok :: Cleanup(id, ok) in steps
    ensures WaitReturns(id, true) in steps <==> exists ok :: Delete(id, ok) in steps
  {
    EndedIsComplete(steps, id);
    CompleteActs(ActsOf(steps, id));
    ActsAreSteps(steps, id);
  }

  /** A standalone call that returned reports what its promise did; it cleaned up exactly on failure and deleted nothing. */
  lemma StandaloneReportsItsPromise(steps: seq<Step>, id: Id)
    requires IsRun(steps) && id in Run(steps).tasks && Run(steps).tasks[id].standalone && Run(steps).tasks[id].pc.Returned?
    ensures var failed := Run(steps).tasks[id].pc.failed;
      && WaitReturns(id, failed) in steps && WaitReturns(id, !failed) !in steps
      && (failed <==> exists ok :: Cleanup(id, ok) in steps)
      && forall ok :: Delete(id, ok) !in steps
  {
    StandaloneIsSynchronous(steps, id);
    RecordFollowsRun(steps, id);
    ActsAreSteps(steps, id);
    ReturnedActs(ActsOf(steps, id));
  }

  lemma ReturnedActs(d: seq<Act>)
    ensures |d| == 2 && d[0] == Waited(true) && d[1].CleanupAttempted? ==>
      && Waited(true) in d && Waited(false) !in d && (exists ok :: CleanupAttempted(ok) in d) && forall ok :: DeleteAttempted(ok) !in d
    ensures d == [Waited(false)] ==>
      && Waited(false) in d && Waited(true) !in d && (forall ok :: CleanupAttempted(ok) !in d) && forall ok :: DeleteAttempted(ok) !in d
  {
    if |d| == 2 && d[1].CleanupAttempted? {
      assert d[1] in d && CleanupAttempted(d[1].ok) in d;
    }
  }

  /** Before a run deletes a claim it has seen the promise fail, the launched-wait end and one cleanup, in that order. */
  lemma DeletionComesLast(steps: seq<Step>, k: nat)
    requires IsRun(steps) && k < |steps| && steps[k].Delete?
    ensures var d := ActsOf(steps[..k], steps[k].id);
      |d| == 3 && d[0] == Waited(true) && d[1].LaunchWaitEnded? && d[2].CleanupAttempted?
  {
    PrefixIsRun(steps, k + 1);
    var front := steps[..k];
    assert steps[..k + 1][..k] == front;
    RunKeepsInvariants(front);
    RecordFollowsRun(front, steps[k].id);
    assert Consistent(Run(front).tasks[steps[k].id]);
  }

  lemma {:induction false} PrefixIsRun(steps: seq<Step>, n: nat)
    requires IsRun(steps) && n <= |steps|
    ensures IsRun(steps[..n])
  {
    if n == |steps| {
      assert steps[..n] == steps;
    } else {
      assert steps[..|steps| - 1][..n] == steps[..n];
      PrefixIsRun(steps[..|steps| - 1], n);
    }
  }
}
