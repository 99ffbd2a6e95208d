/**
 The Dispatch Manager (src/dm): requests and events that drive one virtual machine through its
 states. One VM is first a value, `Vm`, with what each handler does to it; whole runs mix the
 handlers in any order with an environment that stands for the other managers. Then come the
 objects and the handlers in their own form, and the way from an action's name to its handler.
 */
module DispatchManagers {
  import opened ActionManagers
  import opened Wrappers

  datatype VmState = INIT | PENDING | HOLD | ACTIVE | STOPPED | SUSPENDED | DONE | FAILED

  datatype LcmState =
    | LCM_INIT | PROLOG | BOOT | RUNNING | MIGRATE | SAVE_STOP | SAVE_SUSPEND | SAVE_MIGRATE
    | PROLOG_MIGRATE | PROLOG_RESUME | EPILOG_STOP | EPILOG | SHUTDOWN | CANCEL | FAILURE | CLEANUP
    | UNKNOWN | OFF | OFF_BACKUP | PROLOG_BACKUP | OFF_RECOVER | PROLOG_RECOVER | DELETEBAK
    | DELETE_BACKUP_FAIL | DELETE_RECOVER_FAIL | OFF_BACKUPDISK | PROLOG_BACKUPDISK | ON
    | DELETE_BACKUP_COMPRESS | PROLOG_RECOVER_DECOMPRESS | RECOVER_DECOMPRESS_FAIL

  /** The requests that the Dispatch Manager only passes on. */
  datatype Op =
    | Migrate | LiveMigrate | Backup | Recover | BackupDisk
    | Shutdown | Stop | Cancel | Off | On | Suspend | Restart | Reboot

  /** The triggers it sends: EPILOG_DELETE to the Transfer Manager, the rest to the Life-cycle Manager. */
  datatype Sent = Deploy | Restore | Delete | Clean | EpilogDelete | Pass(op: Op)

  /**
   A virtual machine with the history that the properties speak of: the triggers sent for it,
   how often its leases and its images were released, how often it left ACTIVE through the
   Dispatch Manager, and how often the Transfer Manager put it back to ACTIVE.
   */
  datatype Vm = Vm(
    state: VmState, lcm: LcmState, locked: bool,
    sent: seq<Sent>, leases: nat, images: nat, left: nat, reactivated: nat)

  function SetState(vm: Vm, state: VmState): Vm {
    vm.(state := state, left := vm.left + if vm.state == ACTIVE && state != ACTIVE then 1 else 0)
  }

  function WithSent(vm: Vm, sent: Sent): Vm {
    vm.(sent := vm.sent + [sent])
  }

  function Release(vm: Vm): Vm {
    vm.(leases := vm.leases + 1, images := vm.images + 1)
  }

  // ---------------------------------------------------------------------------
  // Requests
  // ---------------------------------------------------------------------------

  datatype Request =
    | DeployReq | HoldReq | ReleaseReq | ResumeReq | FinalizeReq | ResubmitReq
    | Forward(op: Op)

  predicate Passes(vm: Vm, op: Op) {
    match op
    case Recover => true
    case On => vm.state == ACTIVE && vm.lcm == LcmState.OFF
    case Restart => vm.state == ACTIVE && (vm.lcm == UNKNOWN || vm.lcm == BOOT)
    case _ => vm.state == ACTIVE && vm.lcm == RUNNING
  }

  /** Callers that hold the VM themselves are told -1, the others -2. */
  function WrongState(op: Op): int {
    if op in {Op.Migrate, LiveMigrate, Backup, BackupDisk} then -1 else -2
  }

  function Handle(vm: Vm, request: Request): (Vm, int) {
    match request
    case DeployReq =>
      if vm.state == PENDING then (WithSent(SetState(vm, ACTIVE), Deploy), 0) else (vm, -1)
    case HoldReq =>
      if vm.state == PENDING then (SetState(vm, HOLD), 0) else (vm, -2)
    case ReleaseReq =>
      if vm.state == HOLD then (SetState(vm, PENDING), 0) else (vm, -2)
    case ResumeReq =>
      if vm.state == STOPPED then (SetState(vm, PENDING), 0)
      else if vm.state == SUSPENDED then (WithSent(SetState(vm, ACTIVE), Restore), 0)
      else (vm, -2)
    case FinalizeReq =>
      if vm.state == ACTIVE then (WithSent(vm, Delete), 0)
      else if vm.state == DONE then (vm, 0)
      else
        var v := if vm.state == SUSPENDED || vm.state == FAILED then WithSent(vm, EpilogDelete) else vm;
        (Release(SetState(v.(lcm := LCM_INIT), DONE)), 0)
    case ResubmitReq =>
      if vm.state == SUSPENDED || vm.state == DONE then (vm, -2)
      else if vm.state == INIT || vm.state == PENDING then (vm, 0)
      else if vm.state == ACTIVE then (WithSent(vm, Clean), 0)
      else
        var v := if vm.state == FAILED then WithSent(vm, EpilogDelete) else vm;
        (SetState(v.(lcm := LCM_INIT), PENDING), 0)
    case Forward(op) =>
      if Passes(vm, op) then (WithSent(vm, Pass(op)), 0) else (vm, WrongState(op))
  }

  // ---------------------------------------------------------------------------
  // Events
  // ---------------------------------------------------------------------------

  datatype Action = SuspendSuccess | StopSuccess | Done | Failed | Resubmit

  /** The test at the top of each event handler; the last two never look at the VM state. */
  predicate Accepts(vm: Vm, event: Action) {
    match event
    case SuspendSuccess => vm.state == ACTIVE && vm.lcm == SAVE_SUSPEND
    case StopSuccess => vm.state == ACTIVE && vm.lcm == EPILOG_STOP
    case Done => vm.state == ACTIVE && (vm.lcm == EPILOG || vm.lcm == CANCEL || vm.lcm == CLEANUP)
    case Failed => vm.lcm == FAILURE
    case Resubmit => vm.lcm == CLEANUP
  }

  function Target(event: Action): VmState {
    match event
    case SuspendSuccess => SUSPENDED
    case StopSuccess => STOPPED
    case Done => DONE
    case Failed => FAILED
    case Resubmit => PENDING
  }

  function Receive(vm: Vm, event: Action): Vm {
    if Accepts(vm, event) then
      var v := SetState(vm.(lcm := LCM_INIT), Target(event));
      if event == Done then Release(v) else v
    else if event == Failed || event == Resubmit then vm.(locked := true)
    else vm
  }

  // ---------------------------------------------------------------------------
  // Runs
  // ---------------------------------------------------------------------------

  /**
   One step of a VM. The environment writes the life-cycle state whenever it likes, and the
   Transfer Manager turns a failed VM that is being recovered back to ACTIVE.
   */
  datatype Step =
    | Ask(request: Request)
    | Event(action: Action)
    | SetLcm(lcm: LcmState)
    | Reactivate

  /** Every manager takes the VM with its mutex, so a VM left locked does not change any more. */
  function Next(vm: Vm, step: Step): Vm {
    if vm.locked then vm else
    match step
    case Ask(request) => Handle(vm, request).0
    case Event(action) => Receive(vm, action)
    case SetLcm(lcm) => vm.(lcm := lcm)
    case Reactivate =>
      if vm.state == FAILED then vm.(state := ACTIVE, reactivated := vm.reactivated + 1) else vm
  }

  function Run(vm: Vm, steps: seq<Step>): Vm {
    if steps == [] then vm else Next(Run(vm, steps[..|steps| - 1]), steps[|steps| - 1])
  }

  lemma RunMore(vm: Vm, steps: seq<Step>, step: Step)
    ensures Run(vm, steps + [step]) == Next(Run(vm, steps), step)
  {
    assert (steps + [step])[..|steps|] == steps;
  }

  /** A VM as the pool allocates it. */
  ghost predicate Created(vm: Vm) {
    vm.state in {INIT, PENDING, HOLD} && vm == Vm(vm.state, LCM_INIT, false, [], 0, 0, 0, 0)
  }

  function Activations(sent: seq<Sent>): nat {
    if sent == [] then 0
    else Activations(sent[..|sent| - 1]) + if sent[|sent| - 1] in {Deploy, Restore} then 1 else 0
  }

  lemma TriggerCounts(vm: Vm, sent: Sent)
    ensures Activations(WithSent(vm, sent).sent)
         == Activations(vm.sent) + if sent == Deploy || sent == Restore then 1 else 0
  {
    assert WithSent(vm, sent).sent[..|vm.sent|] == vm.sent;
  }

  /** Activations and reactivations are the times the VM has left ACTIVE, plus one if it is ACTIVE. */
  ghost predicate Balanced(vm: Vm) {
    Activations(vm.sent) + vm.reactivated == vm.left + if vm.state == ACTIVE then 1 else 0
  }

  lemma HandleKeepsBalance(vm: Vm, request: Request)
    requires Balanced(vm)
    ensures Balanced(Handle(vm, request).0)
  {
    hide Activations;
    match request
    case DeployReq => TriggerCounts(SetState(vm, ACTIVE), Deploy);
    case ResumeReq => TriggerCounts(SetState(vm, ACTIVE), Restore);
    case FinalizeReq => TriggerCounts(vm, Delete); TriggerCounts(vm, EpilogDelete);
    case ResubmitReq => TriggerCounts(vm, Clean); TriggerCounts(vm, EpilogDelete);
    case Forward(op) => TriggerCounts(vm, Pass(op));
    case _ =>
  }

  /** The balance holds after every run, whatever the environment writes. */
  lemma {:induction false} RunKeepsBalance(vm: Vm, steps: seq<Step>)
    requires Balanced(vm)
    ensures Balanced(Run(vm, steps))
  {
    if steps != [] {
      var before, step := Run(vm, steps[..|steps| - 1]), steps[|steps| - 1];
      RunKeepsBalance(vm, steps[..|steps| - 1]);
      hide Activations, Handle;
      if step.Ask? { HandleKeepsBalance(before, step.request); }
    }
  }

  // ---------------------------------------------------------------------------
  // Late events
  // ---------------------------------------------------------------------------

  /** An event that is accepted although the VM is not ACTIVE: only FAILED and RESUBMIT can be. */
  predicate Late(vm: Vm, step: Step) {
    !vm.locked && vm.state != ACTIVE && step.Event? && Accepts(vm, step.action)
  }

  /** How often a run takes the VM out of DONE by a late event. */
  function Exits(vm: Vm, steps: seq<Step>): nat {
    if steps == [] then 0
    else
      var before := Run(vm, steps[..|steps| - 1]);
      Exits(vm, steps[..|steps| - 1]) + if before.state == DONE && Late(before, steps[|steps| - 1]) then 1 else 0
  }

  lemma NextReleases(vm: Vm, step: Step)
    requires vm.leases == vm.images
    ensures var next := Next(vm, step);
            && next.leases == next.images
            && next.leases + (if vm.state == DONE then 1 else 0)
            == vm.leases + (if vm.state == DONE && Late(vm, step) then 1 else 0) + if next.state == DONE then 1 else 0
  {
    if step.Ask? { assert !vm.locked ==> Handle(vm, step.request).0.leases == Next(vm, step).leases; }
  }

  /**
   The exact law of releases, for every run and every environment: leases and images are each
   released once more than late events have taken the VM out of DONE, if it is DONE, and as often
   as that otherwise.
   */
  lemma {:induction false} ReleasesCounted(vm: Vm, steps: seq<Step>)
    requires Created(vm)
    ensures var end := Run(vm, steps);
            end.leases == end.images == Exits(vm, steps) + if end.state == DONE then 1 else 0
  {
    hide Next, Late;
    if steps != [] {
      var init := steps[..|steps| - 1];
      ReleasesCounted(vm, init);
      NextReleases(Run(vm, init), steps[|init|]);
    }
  }

  /**
   The life of a VM, in every run: the activations balance, and its leases and images have been
   released once if it is DONE and never otherwise, if and only if no late event took it out of DONE.
   */
  lemma LifeOfVm(vm: Vm, steps: seq<Step>)
    requires Created(vm)
    ensures var end := Run(vm, steps);
            && Activations(end.sent) + end.reactivated == end.left + (if end.state == ACTIVE then 1 else 0)
            && (end.leases == end.images == (if end.state == DONE then 1 else 0) <==> Exits(vm, steps) == 0)
  {
    hide Run, Next;
    RunKeepsBalance(vm, steps);
    ReleasesCounted(vm, steps);
  }

  lemma LeavesDone(vm: Vm, step: Step)
    requires vm.state == DONE
    ensures Next(vm, step).state == DONE <==> !Late(vm, step)
  {
  }

  /** The VM is DONE before, throughout and after the run. */
  ghost predicate StaysDone(vm: Vm, steps: seq<Step>) {
    forall i :: 0 <= i <= |steps| ==> Run(vm, steps[..i]).state == DONE
  }

  lemma StaysDoneMore(vm: Vm, init: seq<Step>, last: Step)
    ensures StaysDone(vm, init + [last]) <==> StaysDone(vm, init) && Next(Run(vm, init), last).state == DONE
    ensures StaysDone(vm, init) ==> Run(vm, init).state == DONE
  {
    var steps := init + [last];
    RunMore(vm, init, last);
    hide Run, Next;
    assert steps[..|steps|] == steps && init[..|init|] == init;
    forall i | 0 <= i <= |init| ensures steps[..i] == init[..i] {}
  }

  /** A VM that is DONE stays so throughout a run exactly when no late event comes. */
  lemma {:induction false} DoneForGood(vm: Vm, steps: seq<Step>)
    requires vm.state == DONE
    ensures StaysDone(vm, steps) <==> Exits(vm, steps) == 0
  {
    if steps == [] {
      assert steps[..0] == [];
    } else {
      hide StaysDone, Next, Late, Run;
      var init, last := steps[..|steps| - 1], steps[|steps| - 1];
      assert steps == init + [last];
      DoneForGood(vm, init);
      StaysDoneMore(vm, init, last);
      if Run(vm, init).state == DONE {
        LeavesDone(Run(vm, init), last);
      }
    }
  }

  /** The environment does not write FAILURE or CLEANUP into a VM in this state. */
  predicate Spares(vm: Vm, step: Step, state: VmState) {
    step.SetLcm? && vm.state == state ==> step.lcm != FAILURE && step.lcm != CLEANUP
  }

  /** The life-cycle state of a VM in this state is neither FAILURE nor CLEANUP. */
  predicate Calm(vm: Vm, state: VmState) {
    vm.state == state ==> vm.lcm != FAILURE && vm.lcm != CLEANUP
  }

  lemma SparedStaysCalm(vm: Vm, step: Step)
    requires Calm(vm, DONE) && Spares(vm, step, DONE)
    ensures Calm(Next(vm, step), DONE) && (vm.state == DONE ==> !Late(vm, step))
  {
  }

  /** Sparing DONE VMs is enough for DONE to be final. */
  lemma {:induction false} SparedIsFinal(vm: Vm, steps: seq<Step>)
    requires Created(vm)
    requires forall i :: 0 <= i < |steps| ==> Spares(Run(vm, steps[..i]), steps[i], DONE)
    ensures Exits(vm, steps) == 0
    ensures Calm(Run(vm, steps), DONE)
  {
    if steps != [] {
      var init := steps[..|steps| - 1];
      assert forall i :: 0 <= i < |init| ==> init[..i] == steps[..i] && init[i] == steps[i];
      assert Spares(Run(vm, init), steps[|init|], DONE);
      SparedIsFinal(vm, init);
      SparedStaysCalm(Run(vm, init), steps[|init|]);
      hide Next, Late;
    }
  }

  /** A failure report and the request that finalizes the VM, again and again. */
  function LateFailures(n: nat): seq<Step> {
    if n == 0 then [] else LateFailures(n - 1) + [SetLcm(FAILURE), Event(Failed), Ask(FinalizeReq)]
  }

  /** `failure_action` writes FAILURE whatever the state of the VM is. */
  lemma FailureRound(vm: Vm)
    requires !vm.locked
    ensures var end := Next(Next(Next(vm, SetLcm(FAILURE)), Event(Failed)), Ask(FinalizeReq));
            end.state == DONE && !end.locked && end.leases == vm.leases + 1 && end.images == vm.images + 1
  {
    var failed := Next(Next(vm, SetLcm(FAILURE)), Event(Failed));
    assert failed.state == FAILED && !failed.locked && failed.leases == vm.leases && failed.images == vm.images;
  }

  lemma RoundAfter(vm: Vm, steps: seq<Step>)
    requires !Run(vm, steps).locked
    ensures var before, end := Run(vm, steps), Run(vm, steps + [SetLcm(FAILURE), Event(Failed), Ask(FinalizeReq)]);
            end.state == DONE && !end.locked && end.leases == before.leases + 1 && end.images == before.images + 1
  {
    hide Next, Run;
    RunThree(vm, steps, SetLcm(FAILURE), Event(Failed), Ask(FinalizeReq));
    FailureRound(Run(vm, steps));
  }

  /** Each failure report lets the same resources be released once more: no number of releases is the last. */
  lemma {:induction false} ReleasedAgain(vm: Vm, n: nat)
    requires !vm.locked
    ensures var end := Run(vm, LateFailures(n));
            !end.locked && end.leases == vm.leases + n && end.images == vm.images + n && (n > 0 ==> end.state == DONE)
  {
    if n > 0 {
      ReleasedAgain(vm, n - 1);
      RoundAfter(vm, LateFailures(n - 1));
      hide Next, Run;
    }
  }

  lemma RunThree(vm: Vm, steps: seq<Step>, a: Step, b: Step, c: Step)
    ensures Run(vm, steps + [a, b, c]) == Next(Next(Next(Run(vm, steps), a), b), c)
  {
    hide Next, Run;
    assert steps + [a, b, c] == ((steps + [a]) + [b]) + [c];
    RunMore(vm, steps, a);
    RunMore(vm, steps + [a], b);
    RunMore(vm, (steps + [a]) + [b], c);
  }

  /**
   From creation: two failure reports of the monitor, the second one handled after the VM was
   finalized, release its leases and images twice.
   */
  lemma ReleasedTwice(vm: Vm)
    requires Created(vm) && vm.state == PENDING
    ensures var end := Run(vm, [Ask(DeployReq), SetLcm(FAILURE), Event(Failed), Ask(FinalizeReq),
                                SetLcm(FAILURE), Event(Failed), Ask(FinalizeReq)]);
            end.state == DONE && end.leases == 2 && end.images == 2
  {
    var deploy, failure := [Ask(DeployReq)], [SetLcm(FAILURE), Event(Failed), Ask(FinalizeReq)];
    Deployed(vm);
    hide Next, Run;
    RoundAfter(vm, deploy);
    RoundAfter(vm, deploy + failure);
    assert (deploy + failure) + failure
        == [Ask(DeployReq), SetLcm(FAILURE), Event(Failed), Ask(FinalizeReq),
            SetLcm(FAILURE), Event(Failed), Ask(FinalizeReq)];
  }

  lemma Deployed(vm: Vm)
    requires Created(vm) && vm.state == PENDING
    ensures var end := Run(vm, [Ask(DeployReq)]); !end.locked && end.leases == 0 && end.images == 0
  {
    RunMore(vm, [], Ask(DeployReq));
    assert [] + [Ask(DeployReq)] == [Ask(DeployReq)];
  }

  /** The state diagram: the moves that a step can make if it is not a late event. */
  predicate Edge(from: VmState, to: VmState) {
    match from
    case INIT => to == DONE
    case PENDING => to in {HOLD, ACTIVE, DONE}
    case HOLD => to in {PENDING, DONE}
    case ACTIVE => to in {SUSPENDED, STOPPED, DONE, FAILED, PENDING}
    case STOPPED => to in {PENDING, DONE}
    case SUSPENDED => to in {ACTIVE, DONE}
    case DONE => false
    case FAILED => to in {PENDING, DONE, ACTIVE}
  }

  lemma OnlyEdges(vm: Vm, step: Step)
    ensures Next(vm, step).state == vm.state || Edge(vm.state, Next(vm, step).state) || Late(vm, step)
  {
  }

  /** An event for a VM that is not ACTIVE changes at most its lock, exactly if it is not accepted late. */
  lemma StaleEvent(vm: Vm, event: Action)
    requires !vm.locked && vm.state != ACTIVE
    ensures Receive(vm, event) == vm.(locked := event == Failed || event == Resubmit) <==> !Late(vm, Event(event))
  {
  }

  /** No event at all moves a VM that is not ACTIVE exactly when it is neither in FAILURE nor in CLEANUP. */
  lemma UnmovedExactly(vm: Vm)
    requires !vm.locked && vm.state != ACTIVE
    ensures (forall event :: Receive(vm, event).(locked := false) == vm) <==> vm.lcm != FAILURE && vm.lcm != CLEANUP
  {
    if vm.lcm == FAILURE {
      assert Receive(vm, Failed).lcm == LCM_INIT;
    }
    if vm.lcm == CLEANUP {
      assert Receive(vm, Resubmit).lcm == LCM_INIT;
    }
  }

  /** An event handled twice in a row does nothing the second time, whatever the event and the VM. */
  lemma RepeatedEvent(vm: Vm, event: Action)
    ensures var once := Next(vm, Event(event)); Next(once, Event(event)).(locked := once.locked) == once
  {
  }

  /** Where the environment spares every VM that is not ACTIVE, no event of a run is late. */
  lemma {:induction false} FairIsNeverLate(vm: Vm, steps: seq<Step>, i: nat)
    requires Created(vm) && i < |steps|
    requires forall j, state :: 0 <= j < |steps| && state != ACTIVE ==> Spares(Run(vm, steps[..j]), steps[j], state)
    ensures !Late(Run(vm, steps[..i]), steps[i])
    ensures var next := Run(vm, steps[..i + 1]); next.state != ACTIVE ==> next.lcm != FAILURE && next.lcm != CLEANUP
  {
    var before := Run(vm, steps[..i]);
    assert before.state != ACTIVE ==> Spares(before, steps[i], before.state);
    assert steps[..i + 1][..i] == steps[..i];
    if i > 0 {
      FairIsNeverLate(vm, steps, i - 1);
    }
    FairNext(before, steps[i]);
    hide Next, Late, Spares;
  }

  lemma FairNext(vm: Vm, step: Step)
    requires vm.state != ACTIVE ==> vm.lcm != FAILURE && vm.lcm != CLEANUP && Spares(vm, step, vm.state)
    ensures !Late(vm, step)
    ensures var next := Next(vm, step); next.state != ACTIVE ==> next.lcm != FAILURE && next.lcm != CLEANUP
  {
  }

  lemma IdleNext(vm: Vm, step: Step)
    requires vm.state != ACTIVE ==> vm.lcm == LCM_INIT
    requires step.SetLcm? ==> vm.state == ACTIVE
    ensures Next(vm, step).state != ACTIVE ==> Next(vm, step).lcm == LCM_INIT
  {
  }

  /** If only ACTIVE VMs have their life-cycle state written, every other VM is at LCM_INIT. */
  lemma {:induction false} IdleUnlessActive(vm: Vm, steps: seq<Step>)
    requires vm.state != ACTIVE ==> vm.lcm == LCM_INIT
    requires forall i :: 0 <= i < |steps| && steps[i].SetLcm? ==> Run(vm, steps[..i]).state == ACTIVE
    ensures var end := Run(vm, steps); end.state != ACTIVE ==> end.lcm == LCM_INIT
  {
    if steps != [] {
      hide Next;
      var init, last := steps[..|steps| - 1], steps[|steps| - 1];
      forall i | 0 <= i < |init| && init[i].SetLcm? ensures Run(vm, init[..i]).state == ACTIVE {
        assert init[..i] == steps[..i] && init[i] == steps[i];
      }
      IdleUnlessActive(vm, init);
      assert steps[..|init|] == init && steps[|init|] == last;
      IdleNext(Run(vm, init), last);
    }
  }

  // ---------------------------------------------------------------------------
  // What the requests and events mean to a client
  // ---------------------------------------------------------------------------

  /** A hold is accepted exactly for a pending VM, and a release gives back that very VM. */
  lemma HoldAndRelease(vm: Vm)
    ensures var (held, rc) := Handle(vm, HoldReq);
            && (rc == 0 <==> vm.state == PENDING)
            && (rc == 0 ==> Handle(held, DeployReq) == (held, -1) && Handle(held, ReleaseReq) == (vm, 0))
            && (rc != 0 ==> rc == -2 && held == vm)
    ensures var (free, rc) := Handle(vm, ReleaseReq);
            && (rc == 0 <==> vm.state == HOLD)
            && (rc == 0 ==> Handle(free, DeployReq).1 == 0 && Handle(free, HoldReq) == (vm, 0))
            && (rc != 0 ==> rc == -2 && free == vm)
  {
  }

  /** A VM can be deployed exactly while it is pending: the request then makes it ACTIVE, and cannot be repeated. */
  lemma DeployOnce(vm: Vm)
    ensures var (deployed, rc) := Handle(vm, DeployReq);
            && (rc == 0 <==> vm.state == PENDING)
            && (rc == 0 ==> deployed.state == ACTIVE && Handle(deployed, DeployReq) == (deployed, -1))
            && (rc != 0 ==> rc == -1 && deployed == vm)
  {
  }

  /** Which VMs can be deployed after a resubmission, and what becomes of the others. */
  lemma ResubmitAgain(vm: Vm)
    ensures var (again, rc) := Handle(vm, ResubmitReq);
            && (rc == -2 <==> vm.state == SUSPENDED || vm.state == DONE)
            && (rc == 0 <==> rc != -2)
            && (Handle(again, DeployReq).1 == 0 <==> vm.state in {PENDING, HOLD, STOPPED, FAILED})
            && (vm.state in {INIT, PENDING, SUSPENDED, DONE} ==> again == vm)
            && (vm.state in {HOLD, STOPPED, FAILED} ==> again.lcm == LCM_INIT)
            && (vm.state == ACTIVE ==> again == WithSent(vm, Clean))
  {
  }

  /** Finalizing succeeds always and, unless the VM is ACTIVE, ends it; a second time it does nothing. */
  lemma FinalizeEnds(vm: Vm)
    ensures var (ended, rc) := Handle(vm, FinalizeReq);
            && rc == 0
            && (ended.state == DONE <==> vm.state != ACTIVE)
            && (vm.state != ACTIVE ==> Handle(ended, FinalizeReq) == (ended, 0))
            && (vm.state != ACTIVE && vm.state != DONE ==>
                  ended.lcm == LCM_INIT && ended.leases == vm.leases + 1 && ended.images == vm.images + 1)
            && (vm.state == ACTIVE ==> ended == WithSent(vm, Delete))
  {
  }

  /** After a suspension a resume restores the VM on its host; after a stop it is scheduled again. */
  lemma SuspendedOrStopped(vm: Vm)
    requires !vm.locked && vm.state == ACTIVE
    ensures vm.lcm == SAVE_SUSPEND ==>
              var (resumed, rc) := Handle(Receive(vm, SuspendSuccess), ResumeReq);
              rc == 0 && resumed.state == ACTIVE && resumed.lcm == LCM_INIT && resumed.sent == vm.sent + [Restore]
    ensures vm.lcm == EPILOG_STOP ==>
              var (resumed, rc) := Handle(Receive(vm, StopSuccess), ResumeReq);
              rc == 0 && resumed.state == PENDING && resumed.lcm == LCM_INIT && resumed.sent == vm.sent
  {
  }

  /** The events that take an ACTIVE VM further, each in its own life-cycle states and in no other. */
  lemma EventsThatCount(vm: Vm, event: Action)
    requires !vm.locked && vm.state == ACTIVE
    ensures Receive(vm, event).state != ACTIVE <==>
            || (event == SuspendSuccess && vm.lcm == SAVE_SUSPEND)
            || (event == StopSuccess && vm.lcm == EPILOG_STOP)
            || (event == Done && (vm.lcm == EPILOG || vm.lcm == LcmState.CANCEL || vm.lcm == CLEANUP))
            || (event == Failed && vm.lcm == FAILURE)
            || (event == Resubmit && vm.lcm == CLEANUP)
    ensures Receive(vm, event).state != ACTIVE ==>
              && Receive(vm, event).lcm == LCM_INIT && Receive(vm, event).sent == vm.sent
              && (Receive(vm, event).state == DONE <==> event == Done)
  {
  }

  /** A failed VM can be deployed after a resubmission, which cleans it up; one resubmitted while ACTIVE can at once. */
  lemma FailedOrResubmitted(vm: Vm)
    requires !vm.locked && vm.state == ACTIVE
    ensures vm.lcm == FAILURE ==>
              var again := Handle(Receive(vm, Failed), ResubmitReq).0;
              again.sent == vm.sent + [EpilogDelete] && Handle(again, DeployReq).1 == 0
    ensures vm.lcm == CLEANUP ==>
              var again := Receive(vm, Resubmit); again.sent == vm.sent && Handle(again, DeployReq).1 == 0
  {
  }

  /** Is the VM in a state for a request that is only passed on? */
  predicate Serves(vm: Vm, op: Op) {
    || op == Recover
    || (vm.state == ACTIVE && vm.lcm == LcmState.OFF && op == On)
    || (vm.state == ACTIVE && (vm.lcm == UNKNOWN || vm.lcm == BOOT) && op == Restart)
    || (vm.state == ACTIVE && vm.lcm == RUNNING && op != On && op != Restart)
  }

  /** Each trigger is sent by its own request in its own states, once, and by nothing else. */
  lemma SentExactly(vm: Vm, step: Step)
    ensures var now := Next(vm, step).sent;
            && (now == vm.sent || (|now| == |vm.sent| + 1 && now[..|vm.sent|] == vm.sent))
            && (now == vm.sent + [Sent.Deploy] <==> !vm.locked && step == Ask(DeployReq) && vm.state == PENDING)
            && (now == vm.sent + [Restore] <==> !vm.locked && step == Ask(ResumeReq) && vm.state == SUSPENDED)
            && (now == vm.sent + [Delete] <==> !vm.locked && step == Ask(FinalizeReq) && vm.state == ACTIVE)
            && (now == vm.sent + [Clean] <==> !vm.locked && step == Ask(ResubmitReq) && vm.state == ACTIVE)
            && (now == vm.sent + [EpilogDelete] <==>
                  && !vm.locked
                  && (|| (step == Ask(FinalizeReq) && (vm.state == SUSPENDED || vm.state == FAILED))
                      || (step == Ask(ResubmitReq) && vm.state == FAILED)))
            && forall op :: now == vm.sent + [Pass(op)] <==> !vm.locked && step == Ask(Forward(op)) && Serves(vm, op)
  {
    if !vm.locked && step.Ask? {
      SentByRequest(vm, step.request);
    }
    assert forall sent :: (vm.sent + [sent])[|vm.sent|] == sent;
    hide Handle, Serves;
  }

  lemma SentByRequest(vm: Vm, request: Request)
    ensures Handle(vm, request).0.sent == vm.sent + match request {
              case DeployReq => if vm.state == PENDING then [Sent.Deploy] else []
              case ResumeReq => if vm.state == SUSPENDED then [Restore] else []
              case FinalizeReq =>
                if vm.state == ACTIVE then [Delete]
                else if vm.state == SUSPENDED || vm.state == FAILED then [EpilogDelete] else []
              case ResubmitReq =>
                if vm.state == ACTIVE then [Clean] else if vm.state == FAILED then [EpilogDelete] else []
              case Forward(op) => if Serves(vm, op) then [Pass(op)] else []
              case _ => []
            }
  {
  }

  /** A request that is passed on is answered 0 exactly when it is; refused, it changes nothing. */
  lemma PassedOrRefused(vm: Vm, op: Op)
    ensures var (after, rc) := Handle(vm, Forward(op));
            && (rc == 0 <==> Serves(vm, op))
            && after == (if Serves(vm, op) then WithSent(vm, Pass(op)) else vm)
            && (rc != 0 ==> rc == if op in {Op.Migrate, LiveMigrate, Backup, BackupDisk} then -1 else -2)
  {
  }

  function Count(sent: seq<Sent>, kind: Sent): nat {
    if sent == [] then 0 else Count(sent[..|sent| - 1], kind) + if sent[|sent| - 1] == kind then 1 else 0
  }

  /** How often a run takes the VM from one state to another. */
  function Moves(vm: Vm, steps: seq<Step>, from: VmState, to: VmState): nat {
    if steps == [] then 0
    else
      var before := Run(vm, steps[..|steps| - 1]);
      Moves(vm, steps[..|steps| - 1], from, to)
      + if before.state == from && Next(before, steps[|steps| - 1]).state == to then 1 else 0
  }

  lemma CountMore(sent: seq<Sent>, last: Sent, kind: Sent)
    ensures Count(sent + [last], kind) == Count(sent, kind) + if last == kind then 1 else 0
  {
    assert (sent + [last])[..|sent|] == sent;
  }

  lemma CountNext(vm: Vm, step: Step)
    ensures var next := Next(vm, step);
            && Count(next.sent, Sent.Deploy)
            == Count(vm.sent, Sent.Deploy) + (if vm.state == PENDING && next.state == ACTIVE then 1 else 0)
            && Count(next.sent, Restore)
            == Count(vm.sent, Restore) + if vm.state == SUSPENDED && next.state == ACTIVE then 1 else 0
  {
    SentExactly(vm, step);
    WhoActivates(vm, step);
    hide Next, Handle, Serves, Count;
    var now := Next(vm, step).sent;
    if now != vm.sent {
      var last := now[|vm.sent|];
      assert now == vm.sent + [last];
      CountMore(vm.sent, last, Sent.Deploy);
      CountMore(vm.sent, last, Restore);
    }
  }

  lemma WhoActivates(vm: Vm, step: Step)
    ensures var next := Next(vm, step);
            && (vm.state == PENDING && next.state == ACTIVE <==>
                  !vm.locked && step == Ask(DeployReq) && vm.state == PENDING)
            && (vm.state == SUSPENDED && next.state == ACTIVE <==>
                  !vm.locked && step == Ask(ResumeReq) && vm.state == SUSPENDED)
  {
  }

  /** In every run DEPLOY is sent as often as the VM goes from PENDING to ACTIVE, and RESTORE from SUSPENDED. */
  lemma {:induction false} ActivationsApart(vm: Vm, steps: seq<Step>)
    ensures Count(Run(vm, steps).sent, Sent.Deploy) == Count(vm.sent, Sent.Deploy) + Moves(vm, steps, PENDING, ACTIVE)
    ensures Count(Run(vm, steps).sent, Restore) == Count(vm.sent, Restore) + Moves(vm, steps, SUSPENDED, ACTIVE)
  {
    hide Next, Count;
    if steps != [] {
      var init := steps[..|steps| - 1];
      ActivationsApart(vm, init);
      CountNext(Run(vm, init), steps[|init|]);
    }
  }

  /** A step that may free a VM from a hold. */
  predicate Frees(vm: Vm, step: Step) {
    step == Ask(ReleaseReq) || step == Ask(ResubmitReq) || Late(vm, step)
  }

  lemma HeldNext(vm: Vm, step: Step)
    requires (vm.state == HOLD || vm.state == DONE) && !Frees(vm, step)
    ensures var next := Next(vm, step);
            (next.state == HOLD || next.state == DONE) && Count(next.sent, Sent.Deploy) == Count(vm.sent, Sent.Deploy)
  {
    CountNext(vm, step);
    hide Count;
  }

  /** A held VM is not deployed, whatever else is asked of it, before a release, a resubmission or a late event. */
  lemma {:induction false} HeldUntilFreed(vm: Vm, steps: seq<Step>)
    requires vm.state == HOLD
    requires forall i :: 0 <= i < |steps| ==> !Frees(Run(vm, steps[..i]), steps[i])
    ensures var end := Run(vm, steps);
            && (end.state == HOLD || end.state == DONE)
            && Count(end.sent, Sent.Deploy) == Count(vm.sent, Sent.Deploy)
  {
    if steps != [] {
      hide Next, Frees, Count;
      var init, last := steps[..|steps| - 1], steps[|steps| - 1];
      forall i | 0 <= i < |init| ensures !Frees(Run(vm, init[..i]), init[i]) {
        assert init[..i] == steps[..i] && init[i] == steps[i];
      }
      HeldUntilFreed(vm, init);
      assert steps[..|init|] == init && steps[|init|] == last;
      HeldNext(Run(vm, init), last);
    }
  }

  // ---------------------------------------------------------------------------
  // Many VMs
  // ---------------------------------------------------------------------------

  /**
   The pool. `get` takes the mutex of a VM while it holds the mutex of the pool, so the first
   step for a VM that was left locked waits for ever and keeps the pool with it: it is `stuck`.
   */
  datatype Pool = Pool(vms: map<int, Vm>, stuck: bool)

  /** The mutex is not given back exactly when FAILED or RESUBMIT arrives in the wrong life-cycle state. */
  lemma KeepsLock(vm: Vm, event: Action)
    requires !vm.locked
    ensures Receive(vm, event).locked <==>
            (event == Failed && vm.lcm != FAILURE) || (event == Resubmit && vm.lcm != CLEANUP)
    ensures forall request :: !Handle(vm, request).0.locked
  {
  }

  function PoolNext(pool: Pool, vid: int, step: Step): Pool {
    if pool.stuck || vid !in pool.vms then pool
    else if pool.vms[vid].locked then pool.(stuck := true)
    else pool.(vms := pool.vms[vid := Next(pool.vms[vid], step)])
  }

  function RunPool(pool: Pool, steps: seq<(int, Step)>): Pool {
    if steps == [] then pool
    else
      var (vid, step) := steps[|steps| - 1];
      PoolNext(RunPool(pool, steps[..|steps| - 1]), vid, step)
  }

  function StepsOf(vid: int, steps: seq<(int, Step)>): seq<Step> {
    if steps == [] then []
    else StepsOf(vid, steps[..|steps| - 1]) + if steps[|steps| - 1].0 == vid then [steps[|steps| - 1].1] else []
  }

  /** Step number `i` asks for a VM that its own earlier steps have left locked. */
  predicate Waits(pool: Pool, steps: seq<(int, Step)>, i: int)
    requires 0 <= i < |steps|
  {
    var vid := steps[i].0;
    vid in pool.vms && Run(pool.vms[vid], StepsOf(vid, steps[..i])).locked
  }

  /** The steps that are carried out before the first one that waits. */
  function Served(pool: Pool, steps: seq<(int, Step)>): (n: nat)
    ensures n <= |steps|
  {
    if steps == [] then 0
    else
      var n := Served(pool, steps[..|steps| - 1]);
      if n == |steps| - 1 && !Waits(pool, steps, n) then |steps| else n
  }

  /** `Served` counts up to the first step that waits. */
  lemma {:induction false} ServedIsFirst(pool: Pool, steps: seq<(int, Step)>)
    ensures forall i :: 0 <= i < Served(pool, steps) ==> !Waits(pool, steps, i)
    ensures Served(pool, steps) < |steps| ==> Waits(pool, steps, Served(pool, steps))
  {
    if steps != [] {
      var init := steps[..|steps| - 1];
      ServedIsFirst(pool, init);
      forall i | 0 <= i < |init| ensures Waits(pool, steps, i) <==> Waits(pool, init, i) {
        assert init[..i] == steps[..i] && init[i] == steps[i];
      }
    }
  }

  /**
   Every interleaving over many VMs: each VM has gone through its own steps up to the first step
   of any VM that waits, and through nothing else; and the pool is stuck exactly if there is such a step.
   */
  lemma {:induction false} PoolRuns(pool: Pool, steps: seq<(int, Step)>, vid: int)
    requires !pool.stuck
    ensures RunPool(pool, steps).vms.Keys == pool.vms.Keys
    ensures RunPool(pool, steps).stuck <==> Served(pool, steps) < |steps|
    ensures vid in pool.vms ==>
              RunPool(pool, steps).vms[vid] == Run(pool.vms[vid], StepsOf(vid, steps[..Served(pool, steps)]))
  {
    if steps != [] {
      var init := steps[..|steps| - 1];
      var (v, step) := steps[|init|];
      PoolRuns(pool, init, vid);
      PoolRuns(pool, init, v);
      var n := Served(pool, init);
      assert init[..n] == steps[..n];
      if n == |init| {
        assert init[..n] == init;
        assert steps[..|steps|] == steps;
        if v == vid && vid in pool.vms {
          RunMore(pool.vms[vid], StepsOf(vid, init), step);
        } else {
          assert StepsOf(vid, init) + [] == StepsOf(vid, init);
        }
      }
    }
  }

  /** VMs do not interfere, in a run of the pool, exactly as long as no step waits. */
  lemma PoolIsProduct(pool: Pool, steps: seq<(int, Step)>)
    requires !pool.stuck
    ensures !RunPool(pool, steps).stuck <==> forall i :: 0 <= i < |steps| ==> !Waits(pool, steps, i)
    ensures !RunPool(pool, steps).stuck ==>
              forall vid :: vid in pool.vms ==>
                && vid in RunPool(pool, steps).vms
                && RunPool(pool, steps).vms[vid] == Run(pool.vms[vid], StepsOf(vid, steps))
  {
    ServedIsFirst(pool, steps);
    PoolRuns(pool, steps, 0);
    if !RunPool(pool, steps).stuck {
      assert steps[..|steps|] == steps;
      forall vid | vid in pool.vms
        ensures vid in RunPool(pool, steps).vms
        ensures RunPool(pool, steps).vms[vid] == Run(pool.vms[vid], StepsOf(vid, steps))
      {
        PoolRuns(pool, steps, vid);
      }
    }
  }

  /** The life of each VM among the others: the laws of one VM, for the steps that were carried out. */
  lemma LifeInPool(pool: Pool, steps: seq<(int, Step)>, vid: int)
    requires !pool.stuck && vid in pool.vms && Created(pool.vms[vid])
    ensures vid in RunPool(pool, steps).vms
    ensures var end, own := RunPool(pool, steps).vms[vid], StepsOf(vid, steps[..Served(pool, steps)]);
            && Balanced(end)
            && end.leases == end.images == Exits(pool.vms[vid], own) + if end.state == DONE then 1 else 0
  {
    hide Run, Next, PoolNext;
    PoolRuns(pool, steps, vid);
    var own := StepsOf(vid, steps[..Served(pool, steps)]);
    RunKeepsBalance(pool.vms[vid], own);
    ReleasesCounted(pool.vms[vid], own);
  }

  /** From then on no step changes any VM. */
  lemma {:induction false} StuckForGood(pool: Pool, steps: seq<(int, Step)>)
    requires pool.stuck
    ensures RunPool(pool, steps) == pool
  {
    if steps != [] { StuckForGood(pool, steps[..|steps| - 1]); }
  }

  lemma {:induction false} RunPoolJoin(pool: Pool, first: seq<(int, Step)>, rest: seq<(int, Step)>)
    ensures RunPool(pool, first + rest) == RunPool(RunPool(pool, first), rest)
  {
    if rest == [] {
      assert first + rest == first;
    } else {
      var init := rest[..|rest| - 1];
      assert (first + rest)[..|first + rest| - 1] == first + init;
      RunPoolJoin(pool, first, init);
    }
  }

  /**
   One FAILED or RESUBMIT that its VM rejects and one more step for that VM stop every VM: whatever
   comes between them goes its way, whatever comes after them does nothing.
   */
  lemma RejectedEventStopsAll(pool: Pool, vid: int, event: Action, between: seq<(int, Step)>, again: Step,
                              after: seq<(int, Step)>)
    requires !pool.stuck && vid in pool.vms && !pool.vms[vid].locked
    requires (event == Failed || event == Resubmit) && !Accepts(pool.vms[vid], event)
    ensures var before := RunPool(pool, [(vid, Event(event))] + between);
            RunPool(pool, ([(vid, Event(event))] + between) + ([(vid, again)] + after)).vms == before.vms
  {
    var first := [(vid, Event(event))];
    var before := RunPool(pool, first + between);
    RunPoolJoin(pool, first + between, [(vid, again)] + after);
    RunPoolJoin(pool, first, between);
    assert first[..0] == [];
    assert RunPool(pool, first) == PoolNext(RunPool(pool, []), vid, Event(event));
    LockedStays(RunPool(pool, first), between, vid);
    RunPoolJoin(before, [(vid, again)], after);
    assert [(vid, again)][..0] == [];
    assert RunPool(before, [(vid, again)]) == PoolNext(RunPool(before, []), vid, again);
    StuckForGood(RunPool(before, [(vid, again)]), after);
  }

  lemma {:induction false} LockedStays(pool: Pool, steps: seq<(int, Step)>, vid: int)
    requires vid in pool.vms && pool.vms[vid].locked
    ensures var end := RunPool(pool, steps); vid in end.vms && end.vms[vid].locked
  {
    if steps != [] { LockedStays(pool, steps[..|steps| - 1], vid); }
  }

  // ---------------------------------------------------------------------------
  // From an action to its handler
  // ---------------------------------------------------------------------------

  /** The enumeration of `trigger`; a number outside it pushes nothing. */
  datatype Command = Do(action: Action) | Finalize | OutOfRange

  function NameOf(command: Command): Option<string> {
    match command
    case Do(SuspendSuccess) => Some("SUSPEND_SUCCESS")
    case Do(StopSuccess) => Some("STOP_SUCCESS")
    case Do(Done) => Some("DONE")
    case Do(Failed) => Some("FAILED")
    case Do(Resubmit) => Some("RESUBMIT")
    case Finalize => Some(ACTION_FINALIZE)
    case OutOfRange => None
  }

  /** The chain of comparisons in `do_action`: the event whose handler runs, if any does. */
  function HandlerOf(name: string): Option<Action> {
    if name == "SUSPEND_SUCCESS" then Some(SuspendSuccess)
    else if name == "STOP_SUCCESS" then Some(StopSuccess)
    else if name == "DONE" then Some(Done)
    else if name == "FAILED" then Some(Failed)
    else if name == "RESUBMIT" then Some(Resubmit)
    else None
  }

  lemma NamesReachHandlers(command: Command)
    requires command != OutOfRange
    ensures HandlerOf(NameOf(command).value) == if command.Do? then Some(command.action) else None
    ensures NameOf(command).value == ACTION_FINALIZE <==> command == Finalize
  {
    assert "SUSPEND_SUCCESS"[1] == 'U' && "STOP_SUCCESS"[1] == 'T' && "RESUBMIT"[1] == 'E';
    assert |"DONE"| == 4 && |"FAILED"| == 6 && |ACTION_FINALIZE| == 15 && |"SUSPEND_SUCCESS"| == 15;
    assert ACTION_FINALIZE[1] == 'C';
  }

  /** What producers push in a schedule, in order. */
  function Pushes(es: seq<ActionManagers.Event>): seq<ActionRequest> {
    if es == [] then []
    else Pushes(es[..|es| - 1]) + if es[|es| - 1].Trigger? then [es[|es| - 1].request] else []
  }

  lemma {:induction false} PushedInOrder(es: seq<ActionManagers.Event>)
    ensures ActionManagers.Run(START, es, NoTimer).pushed == Pushes(es)
  {
    if es != [] { PushedInOrder(es[..|es| - 1]); }
  }

  /** These requests are what `trigger` pushes for these calls. */
  predicate PushedFor(calls: seq<(Command, int)>, pushed: seq<ActionRequest>) {
    && |pushed| == |calls|
    && forall i :: 0 <= i < |calls| ==>
         calls[i].0 != OutOfRange && pushed[i] == ActionRequest(NameOf(calls[i].0).value, calls[i].1)
  }

  /**
   For every interleaving of `trigger` calls with the loop, the handlers that have run are those
   of the triggered actions, in the order of the calls and with the VM of each call.
   */
  lemma FifoHandlers(calls: seq<(Command, int)>, es: seq<ActionManagers.Event>)
    requires PushedFor(calls, Pushes(es))
    ensures var run := ActionManagers.Run(START, es, NoTimer).dispatched;
            && |run| <= |calls|
            && (forall i :: 0 <= i < |run| ==>
                  && HandlerOf(run[i].name) == (if calls[i].0.Do? then Some(calls[i].0.action) else None)
                  && run[i].args == calls[i].1)
            && (forall i :: 0 <= i < |run| - 1 ==> calls[i].0 != Finalize)
  {
    ActionManagers.RunKeepsInv(es, NoTimer);
    PushedInOrder(es);
    DispatchedFirst(calls, ActionManagers.Run(START, es, NoTimer));
  }

  lemma {:induction false} RoundsPushNothing(es: seq<ActionManagers.Event>, n: nat)
    ensures Pushes(es + Rounds(n)) == Pushes(es)
  {
    if n == 0 {
      assert es + [] == es;
    } else {
      RoundsPushNothing(es, n - 1);
      var before := es + Rounds(n - 1);
      assert es + Rounds(n) == (before + [Wakeup]) + [Enter];
      assert ((before + [Wakeup]) + [Enter])[..|before| + 1] == before + [Wakeup];
      assert (before + [Wakeup])[..|before|] == before;
    }
  }

  lemma {:induction false} NoFinalizeAll(q: seq<ActionRequest>)
    requires forall i :: 0 <= i < |q| ==> q[i].name != ACTION_FINALIZE
    ensures UpToFinalize(q) == q
  {
    if q != [] {
      NoFinalizeAll(q[1..]);
      assert q == [q[0]] + q[1..];
    }
  }

  /** No call is lost: if none of them is FINALIZE, enough rounds of the loop handle every one. */
  lemma EveryCallHandled(calls: seq<(Command, int)>, es: seq<ActionManagers.Event>)
    requires PushedFor(calls, Pushes(es)) && forall i :: 0 <= i < |calls| ==> calls[i].0 != Finalize
    ensures var queued := |ActionManagers.Run(START, es, NoTimer).queue|;
            var run := ActionManagers.Run(START, es + Rounds(queued), NoTimer).dispatched;
            && |run| == |calls|
            && forall i :: 0 <= i < |run| ==>
                 HandlerOf(run[i].name) == Some(calls[i].0.action) && run[i].args == calls[i].1
  {
    hide Rounds, HandlerOf, ActionManagers.Run;
    var queued := |ActionManagers.Run(START, es, NoTimer).queue|;
    PushedInOrder(es);
    Drains(es, NoTimer);
    RoundsPushNothing(es, queued);
    FifoHandlers(calls, es + Rounds(queued));
    forall i | 0 <= i < |calls| ensures Pushes(es)[i].name != ACTION_FINALIZE {
      NamesReachHandlers(calls[i].0);
    }
    NoFinalizeAll(Pushes(es));
  }

  /** In a queue that keeps its order, what was dispatched are the first calls. */
  lemma DispatchedFirst(calls: seq<(Command, int)>, loop: LoopState)
    requires ActionManagers.Inv(loop) && PushedFor(calls, loop.pushed)
    ensures |loop.dispatched| <= |calls|
    ensures forall i :: 0 <= i < |loop.dispatched| ==>
              && HandlerOf(loop.dispatched[i].name) == (if calls[i].0.Do? then Some(calls[i].0.action) else None)
              && loop.dispatched[i].args == calls[i].1
    ensures forall i :: 0 <= i < |loop.dispatched| - 1 ==> calls[i].0 != Finalize
  {
    hide HandlerOf;
    forall i | 0 <= i < |loop.dispatched|
      ensures loop.dispatched[i] == ActionRequest(NameOf(calls[i].0).value, calls[i].1)
      ensures HandlerOf(NameOf(calls[i].0).value) == if calls[i].0.Do? then Some(calls[i].0.action) else None
      ensures NameOf(calls[i].0).value == ACTION_FINALIZE <==> calls[i].0 == Finalize
    {
      assert loop.dispatched[i] == (loop.dispatched + loop.queue)[i] == loop.pushed[i];
      NamesReachHandlers(calls[i].0);
    }
  }

  // ---------------------------------------------------------------------------
  // The whole system
  // ---------------------------------------------------------------------------

  /** A step that does not come through the queue: a request, or a write of another manager. */
  type OtherStep = step: Step | !step.Event? witness Reactivate

  datatype SysEvent = Q(event: ActionManagers.Event) | Other(vid: int, step: OtherStep)

  /** The queue with its loop, the VMs, and all steps that were asked of the VMs, by whomever. */
  datatype Sys = Sys(loop: LoopState, hung: bool, pool: Pool, steps: seq<(int, Step)>)

  function Asked(s: Sys, vid: int, step: Step): Sys {
    s.(pool := PoolNext(s.pool, vid, step), steps := s.steps + [(vid, step)])
  }

  /** The loop's listener: the handler waits for ever, and the loop with it, if the pool is stuck. */
  function Listen(s: Sys, r: ActionRequest): Sys {
    match HandlerOf(r.name)
    case None => s
    case Some(action) =>
      var t := Asked(s, r.args, Event(action));
      t.(hung := t.pool.stuck)
  }

  /** Producers may push at any time; the loop does nothing any more once its listener hangs. */
  function SysNext(s: Sys, e: SysEvent): Sys {
    match e
    case Other(vid, step) => Asked(s, vid, step)
    case Q(event) =>
      if s.hung && !event.Trigger? then s
      else
        var loop := ActionManagers.Next(s.loop, event, NoTimer);
        var t := s.(loop := loop);
        if |loop.dispatched| == |s.loop.dispatched| then t else Listen(t, loop.dispatched[|s.loop.dispatched|])
  }

  function RunSys(pool: Pool, es: seq<SysEvent>): Sys {
    if es == [] then Sys(START, false, pool, [])
    else SysNext(RunSys(pool, es[..|es| - 1]), es[|es| - 1])
  }

  /** What producers push in a run of the system, in order. */
  function SysPushes(es: seq<SysEvent>): seq<ActionRequest> {
    if es == [] then []
    else
      SysPushes(es[..|es| - 1]) + match es[|es| - 1] {
        case Q(Trigger(r)) => [r]
        case _ => []
      }
  }

  /** The steps of a run that do not come through the queue, in order. */
  function Others(es: seq<SysEvent>): seq<(int, Step)> {
    if es == [] then []
    else
      Others(es[..|es| - 1]) + match es[|es| - 1] {
        case Other(vid, step) => [(vid, step)]
        case _ => []
      }
  }

  /** The events among some steps, and the rest of them. */
  function OnlyEvents(steps: seq<(int, Step)>, events: bool): seq<(int, Step)> {
    if steps == [] then []
    else
      var last := steps[|steps| - 1];
      OnlyEvents(steps[..|steps| - 1], events) + if last.1.Event? == events then [last] else []
  }

  /** The events that the listener makes of some requests. */
  function Handled(run: seq<ActionRequest>): seq<(int, Step)> {
    if run == [] then []
    else
      var r := run[|run| - 1];
      Handled(run[..|run| - 1]) + match HandlerOf(r.name) {
        case Some(action) => [(r.args, Event(action))]
        case None => []
      }
  }

  /** The events that some calls of `trigger` stand for. */
  function EventsOf(calls: seq<(Command, int)>): seq<(int, Step)> {
    if calls == [] then []
    else
      var (command, vid) := calls[|calls| - 1];
      EventsOf(calls[..|calls| - 1]) + match command { case Do(action) => [(vid, Event(action))] case _ => [] }
  }

  ghost predicate SysInv(s: Sys, pool: Pool, es: seq<SysEvent>) {
    && ActionManagers.Inv(s.loop)
    && s.loop.pushed == SysPushes(es)
    && s.pool == RunPool(pool, s.steps)
    && OnlyEvents(s.steps, true) == Handled(s.loop.dispatched)
    && OnlyEvents(s.steps, false) == Others(es)
    && (s.hung ==> s.pool.stuck)
  }

  lemma AskedOnce(pool: Pool, steps: seq<(int, Step)>, vid: int, step: Step)
    ensures RunPool(pool, steps + [(vid, step)]) == PoolNext(RunPool(pool, steps), vid, step)
    ensures forall events :: OnlyEvents(steps + [(vid, step)], events)
                          == OnlyEvents(steps, events) + if step.Event? == events then [(vid, step)] else []
  {
    assert (steps + [(vid, step)])[..|steps|] == steps;
  }

  lemma HandledOnce(run: seq<ActionRequest>, r: ActionRequest)
    ensures Handled(run + [r]) == Handled(run) + match HandlerOf(r.name) {
              case Some(action) => [(r.args, Event(action))]
              case None => []
            }
  {
    assert (run + [r])[..|run|] == run;
  }

  /** One step of the loop pushes a trigger's request, if it is one, and dispatches at most one request. */
  lemma LoopNext(loop: LoopState, e: ActionManagers.Event)
    ensures var next := ActionManagers.Next(loop, e, NoTimer);
            && next.pushed == loop.pushed + (if e.Trigger? then [e.request] else [])
            && (|next.dispatched| == |loop.dispatched| ==> next.dispatched == loop.dispatched)
            && (|next.dispatched| != |loop.dispatched| ==>
                  && |next.dispatched| == |loop.dispatched| + 1
                  && next.dispatched == loop.dispatched + [next.dispatched[|loop.dispatched|]])
  {
  }

  lemma ListenKeeps(s: Sys, pool: Pool, run: seq<ActionRequest>, r: ActionRequest)
    requires s.pool == RunPool(pool, s.steps) && OnlyEvents(s.steps, true) == Handled(run) && (s.hung ==> s.pool.stuck)
    ensures var t := Listen(s, r);
            && t.loop == s.loop && t.pool == RunPool(pool, t.steps) && (t.hung ==> t.pool.stuck)
            && OnlyEvents(t.steps, true) == Handled(run + [r])
            && OnlyEvents(t.steps, false) == OnlyEvents(s.steps, false)
  {
    hide PoolNext, RunPool, OnlyEvents, Handled, HandlerOf;
    HandledOnce(run, r);
    match HandlerOf(r.name) {
      case Some(action) => AskedOnce(pool, s.steps, r.args, Event(action));
      case None =>
    }
  }

  lemma {:induction false} SysKeepsInv(pool: Pool, es: seq<SysEvent>)
    ensures SysInv(RunSys(pool, es), pool, es)
  {
    if es != [] {
      SysKeepsInv(pool, es[..|es| - 1]);
      SysNextKeepsInv(RunSys(pool, es[..|es| - 1]), pool, es);
    }
  }

  lemma SysNextKeepsInv(s: Sys, pool: Pool, es: seq<SysEvent>)
    requires es != [] && SysInv(s, pool, es[..|es| - 1])
    ensures SysInv(SysNext(s, es[|es| - 1]), pool, es)
  {
    hide PoolNext, RunPool, OnlyEvents, Handled, Listen, ActionManagers.Inv, ActionManagers.Next;
    match es[|es| - 1] {
      case Other(vid, step) =>
        AskedOnce(pool, s.steps, vid, step);
        StuckStays(s.pool, vid, step);
      case Q(event) =>
        LoopNext(s.loop, event);
        ActionManagers.NextKeepsInv(s.loop, event, NoTimer);
        var loop := ActionManagers.Next(s.loop, event, NoTimer);
        if |loop.dispatched| != |s.loop.dispatched| {
          ListenKeeps(s.(loop := loop), pool, s.loop.dispatched, loop.dispatched[|s.loop.dispatched|]);
        }
    }
  }

  lemma StuckStays(pool: Pool, vid: int, step: Step)
    ensures pool.stuck ==> PoolNext(pool, vid, step) == pool
  {
  }

  lemma {:induction false} HandledCalls(calls: seq<(Command, int)>, run: seq<ActionRequest>)
    requires |calls| == |run|
    requires forall i :: 0 <= i < |run| ==>
               && HandlerOf(run[i].name) == (if calls[i].0.Do? then Some(calls[i].0.action) else None)
               && run[i].args == calls[i].1
    ensures Handled(run) == EventsOf(calls)
  {
    hide HandlerOf;
    if run != [] {
      HandledCalls(calls[..|calls| - 1], run[..|run| - 1]);
    }
  }

  /**
   From `trigger` to the VMs, in every interleaving of calls, the loop, requests and writes of the
   other managers: the pool is what the steps asked of it make of it; the events among these steps
   are those of the first calls, in the order of the calls; and the others are all the others, in
   their order.
   */
  lemma CallsReachVms(pool: Pool, calls: seq<(Command, int)>, es: seq<SysEvent>)
    requires PushedFor(calls, SysPushes(es))
    ensures var s := RunSys(pool, es);
            && s.pool == RunPool(pool, s.steps)
            && |s.loop.dispatched| <= |calls|
            && OnlyEvents(s.steps, true) == EventsOf(calls[..|s.loop.dispatched|])
            && OnlyEvents(s.steps, false) == Others(es)
  {
    var s := RunSys(pool, es);
    SysKeepsInv(pool, es);
    DispatchedFirst(calls, s.loop);
    HandledCalls(calls[..|s.loop.dispatched|], s.loop.dispatched);
  }

  function SysRounds(n: nat): seq<SysEvent> {
    if n == 0 then [] else SysRounds(n - 1) + [Q(Wakeup), Q(Enter)]
  }

  lemma RunSysMore(pool: Pool, es: seq<SysEvent>, e: SysEvent)
    ensures RunSys(pool, es + [e]) == SysNext(RunSys(pool, es), e)
    ensures SysPushes(es + [e]) == SysPushes(es) + match e { case Q(Trigger(r)) => [r] case _ => [] }
  {
    assert (es + [e])[..|es|] == es;
  }

  /** As long as its listener does not hang, the loop of the system is the loop of the queue. */
  lemma LoopInSystem(s: Sys, e: ActionManagers.Event)
    requires !e.Trigger?
    ensures var t := SysNext(s, Q(e)); t.hung || (!s.hung && t.loop == ActionManagers.Next(s.loop, e, NoTimer))
  {
    hide PoolNext, HandlerOf, ActionManagers.Next;
  }

  lemma RoundInSystem(pool: Pool, es: seq<SysEvent>)
    ensures var s, t := RunSys(pool, es), RunSys(pool, es + [Q(Wakeup), Q(Enter)]);
            || t.hung
            || (!s.hung && t.loop == ActionManagers.Next(ActionManagers.Next(s.loop, Wakeup, NoTimer), Enter, NoTimer))
    ensures SysPushes(es + [Q(Wakeup), Q(Enter)]) == SysPushes(es)
  {
    hide RunSys, SysNext, SysPushes, ActionManagers.Next;
    var woken := es + [Q(Wakeup)];
    assert es + [Q(Wakeup), Q(Enter)] == woken + [Q(Enter)];
    RunSysMore(pool, es, Q(Wakeup));
    RunSysMore(pool, woken, Q(Enter));
    LoopInSystem(RunSys(pool, es), Wakeup);
    LoopInSystem(RunSys(pool, woken), Enter);
  }

  lemma {:induction false} RoundsInSystem(pool: Pool, es: seq<SysEvent>, n: nat)
    ensures var t := RunSys(pool, es + SysRounds(n));
            t.hung || t.loop == ActionManagers.Run(RunSys(pool, es).loop, Rounds(n), NoTimer)
    ensures SysPushes(es + SysRounds(n)) == SysPushes(es)
  {
    hide RunSys, SysPushes, ActionManagers.Next;
    if n == 0 {
      assert es + [] == es;
    } else {
      hide ActionManagers.Run, Rounds;
      RoundsInSystem(pool, es, n - 1);
      RoundInSystem(pool, es + SysRounds(n - 1));
      ActionManagers.RoundsOne(RunSys(pool, es).loop, n - 1, NoTimer);
      assert es + SysRounds(n) == (es + SysRounds(n - 1)) + [Q(Wakeup), Q(Enter)];
    }
  }

  /**
   The system gets through: after any interleaving of calls without FINALIZE, enough rounds of the
   loop ask the event of every call of its VM, unless the listener comes to wait for a stuck pool.
   */
  lemma EveryCallReaches(pool: Pool, calls: seq<(Command, int)>, es: seq<SysEvent>)
    requires PushedFor(calls, SysPushes(es)) && forall i :: 0 <= i < |calls| ==> calls[i].0 != Finalize
    ensures var t := RunSys(pool, es + SysRounds(|RunSys(pool, es).loop.queue|));
            t.pool.stuck || (t.pool == RunPool(pool, t.steps) && OnlyEvents(t.steps, true) == EventsOf(calls))
  {
    var s := RunSys(pool, es);
    var more := es + SysRounds(|s.loop.queue|);
    var t := RunSys(pool, more);
    RoundsInSystem(pool, es, |s.loop.queue|);
    SysKeepsInv(pool, more);
    SysKeepsInv(pool, es);
    ActionManagers.RoundsEmpty(s.loop, |s.loop.queue|, NoTimer);
    hide RunSys, SysRounds, PoolNext, HandlerOf, Rounds, ActionManagers.Run;
    if !t.hung {
      forall i | 0 <= i < |calls| ensures SysPushes(es)[i].name != ACTION_FINALIZE {
        NamesReachHandlers(calls[i].0);
      }
      NoFinalizeAll(SysPushes(es));
      ActionManagers.FirstFinalize(t.loop.dispatched, t.loop.queue);
      DispatchedFirst(calls, t.loop);
      HandledCalls(calls, t.loop.dispatched);
    }
  }

  /** The laws of one VM in the whole system, for the steps of it that were carried out. */
  lemma LifeInSystem(pool: Pool, es: seq<SysEvent>, vid: int)
    requires !pool.stuck && vid in pool.vms && Created(pool.vms[vid])
    ensures var s := RunSys(pool, es);
            var own := StepsOf(vid, s.steps[..Served(pool, s.steps)]);
            && vid in s.pool.vms && s.pool.vms[vid] == Run(pool.vms[vid], own)
            && Balanced(s.pool.vms[vid])
            && s.pool.vms[vid].leases == s.pool.vms[vid].images
            == Exits(pool.vms[vid], own) + if s.pool.vms[vid].state == DONE then 1 else 0
  {
    hide Run, Next, PoolNext, RunSys, Balanced, Exits, Created;
    var s := RunSys(pool, es);
    SysKeepsInv(pool, es);
    PoolRuns(pool, s.steps, vid);
    LifeInPool(pool, s.steps, vid);
  }

  // ---------------------------------------------------------------------------
  // The objects
  // ---------------------------------------------------------------------------

  class VirtualMachine {
    var state: VmState
    var lcmState: LcmState
    var locked: bool
    ghost var sent: seq<Sent>
    ghost var leases: nat
    ghost var images: nat
    ghost var left: nat
    ghost var reactivated: nat

    ghost function View(): Vm
      reads this
    {
      Vm(state, lcmState, locked, sent, leases, images, left, reactivated)
    }

    constructor (onHold: bool)
      ensures Created(View()) && state == if onHold then HOLD else PENDING
    {
      state := if onHold then HOLD else PENDING;
      lcmState := LCM_INIT;
      locked := false;
      sent, leases, images, left, reactivated := [], 0, 0, 0, 0;
    }

    method SetVmState(s: VmState)
      modifies this
      ensures View() == SetState(old(View()), s)
    {
      left := left + if state == ACTIVE && s != ACTIVE then 1 else 0;
      state := s;
    }

    method SetLcmState(s: LcmState)
      modifies this
      ensures View() == old(View()).(lcm := s)
    {
      lcmState := s;
    }

    /** A trigger of another manager for this VM. */
    ghost method Send(s: Sent)
      modifies this
      ensures View() == WithSent(old(View()), s)
    {
      sent := sent + [s];
    }

    /** `release_network_leases` and `release_disk_images` */
    ghost method ReleaseAll()
      modifies this
      ensures View() == Release(old(View()))
    {
      leases := leases + 1;
      images := images + 1;
    }

    method Unlock()
      modifies this`locked
      ensures !locked
    {
      locked := false;
    }
  }

  class DispatchManager {
    const vmpool: map<int, VirtualMachine>

    constructor (vmpool: map<int, VirtualMachine>)
      ensures this.vmpool == vmpool
    {
      this.vmpool := vmpool;
    }

    /** Nobody holds the VM, so `vmpool->get(vid, true)` does not block. */
    ghost predicate Available(vid: int)
      reads VmOf(vid)
    {
      vid in vmpool ==> !vmpool[vid].locked
    }

    ghost function VmOf(vid: int): set<VirtualMachine> {
      if vid in vmpool then {vmpool[vid]} else {}
    }

    method Get(vid: int) returns (vm: VirtualMachine?)
      requires Available(vid)
      modifies VmOf(vid)
      ensures vm == null <==> vid !in vmpool
      ensures vm != null ==> vm == vmpool[vid] && vm.View() == old(vmpool[vid].View()).(locked := true)
    {
      if vid in vmpool {
        vm := vmpool[vid];
        vm.locked := true;
      } else {
        vm := null;
      }
    }

    /** The caller has the VM locked; it is unlocked whatever happens. */
    method Deploy(vm: VirtualMachine?) returns (rc: int)
      requires vm != null ==> vm.locked
      modifies if vm == null then {} else {vm}
      ensures vm == null ==> rc == -1
      ensures vm != null ==> (vm.View(), rc) == Handle(old(vm.View()).(locked := false), DeployReq)
    {
      if vm == null {
        return -1;
      }
      if vm.state == PENDING {
        vm.SetVmState(ACTIVE);
        vm.Send(Sent.Deploy);
        rc := 0;
      } else {
        rc := -1;
      }
      vm.Unlock();
    }

    /** migrate, backup, recover, backupdisk and live_migrate; and the tail of the others once they have the VM. */
    method PassOn(vm: VirtualMachine?, op: Op) returns (rc: int)
      requires vm != null ==> vm.locked
      modifies if vm == null then {} else {vm}
      ensures vm == null ==> rc == -1
      ensures vm != null ==> (vm.View(), rc) == Handle(old(vm.View()).(locked := false), Forward(op))
    {
      if vm == null {
        return -1;
      }
      var accepted := false;
      match op {
        case Recover => accepted := true;
        case On => accepted := vm.state == ACTIVE && vm.lcmState == LcmState.OFF;
        case Restart => accepted := vm.state == ACTIVE && (vm.lcmState == UNKNOWN || vm.lcmState == BOOT);
        case _ => accepted := vm.state == ACTIVE && vm.lcmState == RUNNING;
      }
      if accepted {
        vm.Send(Pass(op));
        rc := 0;
      } else {
        rc := if op in {Op.Migrate, LiveMigrate, Backup, BackupDisk} then -1 else -2;
      }
      vm.Unlock();
    }

    /** shutdown, stop, cancel, off, on, suspend, restart and reboot */
    method PassOnById(vid: int, op: Op) returns (rc: int)
      requires Available(vid)
      modifies VmOf(vid)
      ensures vid !in vmpool ==> rc == -1
      ensures vid in vmpool ==> (vmpool[vid].View(), rc) == Handle(old(vmpool[vid].View()), Forward(op))
    {
      var vm := Get(vid);
      rc := PassOn(vm, op);
    }

    method Hold(vid: int) returns (rc: int)
      requires Available(vid)
      modifies VmOf(vid)
      ensures vid !in vmpool ==> rc == -1
      ensures vid in vmpool ==> (vmpool[vid].View(), rc) == Handle(old(vmpool[vid].View()), HoldReq)
    {
      var vm := Get(vid);
      if vm == null {
        return -1;
      }
      if vm.state == PENDING {
        vm.SetVmState(HOLD);
        rc := 0;
      } else {
        rc := -2;
      }
      vm.Unlock();
    }

    method ReleaseVm(vid: int) returns (rc: int)
      requires Available(vid)
      modifies VmOf(vid)
      ensures vid !in vmpool ==> rc == -1
      ensures vid in vmpool ==> (vmpool[vid].View(), rc) == Handle(old(vmpool[vid].View()), ReleaseReq)
    {
      var vm := Get(vid);
      if vm == null {
        return -1;
      }
      if vm.state == HOLD {
        vm.SetVmState(PENDING);
        rc := 0;
      } else {
        rc := -2;
      }
      vm.Unlock();
    }

    method Resume(vid: int) returns (rc: int)
      requires Available(vid)
      modifies VmOf(vid)
      ensures vid !in vmpool ==> rc == -1
      ensures vid in vmpool ==> (vmpool[vid].View(), rc) == Handle(old(vmpool[vid].View()), ResumeReq)
    {
      var vm := Get(vid);
      if vm == null {
        return -1;
      }
      if vm.state == STOPPED {
        vm.SetVmState(PENDING);
        rc := 0;
      } else if vm.state == SUSPENDED {
        vm.SetVmState(ACTIVE);
        vm.Send(Restore);
        rc := 0;
      } else {
        rc := -2;
      }
      vm.Unlock();
    }

    /** The first two cases of the source's switch fall through into the next four. */
    method FinalizeVm(vid: int) returns (rc: int)
      requires Available(vid)
      modifies VmOf(vid)
      ensures vid !in vmpool ==> rc == -1
      ensures vid in vmpool ==> (vmpool[vid].View(), rc) == Handle(old(vmpool[vid].View()), FinalizeReq)
    {
      var vm := Get(vid);
      if vm == null {
        return -1;
      }
      var state := vm.state;
      if state == SUSPENDED || state == FAILED {
        vm.Send(EpilogDelete);
      }
      if state in {SUSPENDED, FAILED, INIT, PENDING, HOLD, STOPPED} {
        vm.SetLcmState(LCM_INIT);
        vm.SetVmState(DONE);
        vm.ReleaseAll();
      } else if state == ACTIVE {
        vm.Send(Delete);
      }
      vm.Unlock();
      rc := 0;
    }

    method ResubmitVm(vid: int) returns (rc: int)
      requires Available(vid)
      modifies VmOf(vid)
      ensures vid !in vmpool ==> rc == -1
      ensures vid in vmpool ==> (vmpool[vid].View(), rc) == Handle(old(vmpool[vid].View()), ResubmitReq)
    {
      rc := 0;
      var vm := Get(vid);
      if vm == null {
        return -1;
      }
      if vm.state == FAILED {
        vm.Send(EpilogDelete);
      }
      match vm.state {
        case SUSPENDED | DONE => rc := -2;
        case INIT | PENDING =>
        case FAILED | HOLD | STOPPED =>
          vm.SetLcmState(LCM_INIT);
          vm.SetVmState(PENDING);
        case ACTIVE => vm.Send(Clean);
      }
      vm.Unlock();
    }

    method SuspendSuccessAction(vid: int)
      requires Available(vid)
      modifies VmOf(vid)
      ensures vid in vmpool ==> vmpool[vid].View() == Receive(old(vmpool[vid].View()), SuspendSuccess)
    {
      var vm := Get(vid);
      if vm == null {
        return;
      }
      if vm.state == ACTIVE && vm.lcmState == SAVE_SUSPEND {
        vm.SetVmState(SUSPENDED);
        vm.SetLcmState(LCM_INIT);
      }
      vm.Unlock();
    }

    method StopSuccessAction(vid: int)
      requires Available(vid)
      modifies VmOf(vid)
      ensures vid in vmpool ==> vmpool[vid].View() == Receive(old(vmpool[vid].View()), StopSuccess)
    {
      var vm := Get(vid);
      if vm == null {
        return;
      }
      if vm.state == ACTIVE && vm.lcmState == EPILOG_STOP {
        vm.SetVmState(STOPPED);
        vm.SetLcmState(LCM_INIT);
      }
      vm.Unlock();
    }

    method DoneAction(vid: int)
      requires Available(vid)
      modifies VmOf(vid)
      ensures vid in vmpool ==> vmpool[vid].View() == Receive(old(vmpool[vid].View()), Done)
    {
      var vm := Get(vid);
      if vm == null {
        return;
      }
      if vm.state == ACTIVE && (vm.lcmState == EPILOG || vm.lcmState == LcmState.CANCEL || vm.lcmState == CLEANUP) {
        vm.SetVmState(DONE);
        vm.SetLcmState(LCM_INIT);
        vm.ReleaseAll();
      }
      vm.Unlock();
    }

    /** This handler and the next test the life-cycle state alone, and unlock only if it fits. */
    method FailedAction(vid: int)
      requires Available(vid)
      modifies VmOf(vid)
      ensures vid in vmpool ==> vmpool[vid].View() == Receive(old(vmpool[vid].View()), Failed)
    {
      var vm := Get(vid);
      if vm == null {
        return;
      }
      if vm.lcmState == FAILURE {
        vm.SetLcmState(LCM_INIT);
        vm.SetVmState(FAILED);
        vm.Unlock();
      }
    }

    method ResubmitAction(vid: int)
      requires Available(vid)
      modifies VmOf(vid)
      ensures vid in vmpool ==> vmpool[vid].View() == Receive(old(vmpool[vid].View()), Resubmit)
    {
      var vm := Get(vid);
      if vm == null {
        return;
      }
      if vm.lcmState == CLEANUP {
        vm.SetLcmState(LCM_INIT);
        vm.SetVmState(PENDING);
        vm.Unlock();
      }
    }

    /** The listener: the name decides which handler gets the VM; other names do nothing. */
    method DoAction(action: string, vid: int)
      requires HandlerOf(action).Some? ==> Available(vid)
      modifies VmOf(vid)
      ensures vid in vmpool ==> vmpool[vid].View() ==
                                match HandlerOf(action) {
                                  case Some(event) => Receive(old(vmpool[vid].View()), event)
                                  case None => old(vmpool[vid].View())
                                }
    {
      if action == "SUSPEND_SUCCESS" {
        SuspendSuccessAction(vid);
      } else if action == "STOP_SUCCESS" {
        StopSuccessAction(vid);
      } else if action == "DONE" {
        DoneAction(vid);
      } else if action == "FAILED" {
        FailedAction(vid);
      } else if action == "RESUBMIT" {
        ResubmitAction(vid);
      }
    }
  }
}
