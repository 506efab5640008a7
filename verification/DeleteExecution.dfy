/** The deletion protocol: one execution of an immutable plan, and its resumption after any failure. */
module DeleteExecution {
  import opened Results
  import opened DeleteState
  import opened DeleteHost

  /** How an execution ends: a failure is refused for good, recoverable, or a crash of the process. */
  datatype Outcome<+T> = Done(value: T) | Refused | Recoverable | Died

  /** One invocation: the bound instance, whether force was asked for and whether it is confirmed. */
  datatype Attempt = Attempt(instance: string, force: bool, confirmed: bool)

  function IdentityOf(plan: DeletePlan): Identity {
    Identity(plan.domainName, plan.domainUuid)
  }

  function Publish(h: Host, o: Oracle, current: GenerationIndex, next: Result<GenerationIndex, StateError>)
    : (Host, Outcome<GenerationIndex>)
  {
    match next
    case Failure(_) => (h, Refused)
    case Success(index) =>
      var (h1, persisted) := PersistDeleteIndex(h, o, current, index);
      match persisted
      case Crashed => (h1, Died)
      case Returned(Failure(_)) => (h1, Recoverable)
      case Returned(Success(_)) => (h1, Done(index))
  }

  /** Brings the exact domain to shutoff, or stops; no other state is ever accepted for undefine. */
  function StopIfRunning(h: Host, o: Oracle, plan: DeletePlan, state: VmState, a: Attempt): (Host, Outcome<()>) {
    if state == Shutoff then (h, Done(()))
    else if state != Running then (h, Refused)
    else if !a.force then (h, Refused)
    else if !a.confirmed then (h, Recoverable)
    else
      var (h1, stopped) := ForceStop(h, o, a.instance, plan.domainUuid);
      match stopped
      case Crashed => (h1, Died)
      case Returned(Failure(_)) => (h1, Recoverable)
      case Returned(Success(_)) =>
        var (h2, observed) := ObserveDomain(h1, o, IdentityOf(plan));
        match observed
        case Crashed => (h2, Died)
        case Returned(Failure(_)) => (h2, Recoverable)
        case Returned(Success(Conflict)) => (h2, Refused)
        case Returned(Success(Absent)) => (h2, Recoverable)
        case Returned(Success(ExactPresent(_, stateNow, _))) =>
          if stateNow == Shutoff then (h2, Done(())) else (h2, Recoverable)
  }

  function UndefineDomain(h: Host, o: Oracle, plan: DeletePlan): (Host, Outcome<()>) {
    var (h1, undefined) := UndefineDomainExact(h, o, IdentityOf(plan));
    match undefined
    case Crashed => (h1, Died)
    case Returned(Success(_)) => (h1, Done(()))
    case Returned(Failure(DomainBackend)) => (h1, Recoverable)
    case Returned(Failure(_)) => (h1, Refused)
  }

  /** The pending domain step: observe, stop, undefine, and publish the domain checkpoint. */
  function DomainPhase(h: Host, o: Oracle, current: GenerationIndex, plan: DeletePlan, a: Attempt)
    : (Host, Outcome<GenerationIndex>)
  {
    var (h1, observed) := ObserveDomain(h, o, IdentityOf(plan));
    match observed
    case Crashed => (h1, Died)
    case Returned(Failure(_)) => (h1, Recoverable)
    case Returned(Success(Conflict)) => (h1, Refused)
    case Returned(Success(Absent)) => Publish(h1, o, current, RecordDomainAbsent(current, plan))
    case Returned(Success(ExactPresent(_, state, _))) =>
      var (h2, stopped) := StopIfRunning(h1, o, plan, state, a);
      match stopped
      case Refused => (h2, Refused)
      case Recoverable => (h2, Recoverable)
      case Died => (h2, Died)
      case Done(_) => UndefineAndRecord(h2, o, current, plan)
  }

  function UndefineAndRecord(h: Host, o: Oracle, current: GenerationIndex, plan: DeletePlan)
    : (Host, Outcome<GenerationIndex>)
  {
    var (h1, undefined) := UndefineDomain(h, o, plan);
    match undefined
    case Refused => (h1, Refused)
    case Recoverable => (h1, Recoverable)
    case Died => (h1, Died)
    case Done(_) => Publish(h1, o, current, RecordDomainAbsent(current, plan))
  }

  /** Deletes one volume and proves its absence; a failed delete call counts if the volume is gone. */
  function RemoveResource(h: Host, o: Oracle, resource: ManagedResource): (Host, Outcome<()>) {
    if resource.role == SharedBase then
      (h, Refused)
    else
      var (h1, deleted) := DeleteManagedVolumeExact(h, o, resource);
      match deleted
      case Crashed => (h1, Died)
      case Returned(Success(_)) => ConfirmAbsent(h1, o, resource)
      case Returned(Failure(VolumeBackend)) =>
        var (h2, verified) := ConfirmAbsent(h1, o, resource);
        if verified.Done? then ConfirmAbsent(h2, o, resource) else (h2, verified)
      case Returned(Failure(_)) => (h1, Refused)
  }

  function ConfirmAbsent(h: Host, o: Oracle, resource: ManagedResource): (Host, Outcome<()>) {
    var (h1, verified) := VerifyManagedVolumeAbsent(h, o, resource);
    match verified
    case Crashed => (h1, Died)
    case Returned(Success(_)) => (h1, Done(()))
    case Returned(Failure(Present)) => (h1, Refused)
    case Returned(Failure(AbsenceBackend)) => (h1, Recoverable)
  }

  /** The storage loop from one plan position on, over the progress read when the loop started. */
  function StoragePhase(h: Host, o: Oracle, current: GenerationIndex, plan: DeletePlan,
                        progress: seq<ResourceProgress>, position: nat)
    : (Host, Outcome<GenerationIndex>)
    requires |progress| == |plan.resources|
    decreases |progress| - position
  {
    if position >= |progress| then (h, Done(current))
    else if progress[position] == ResourceAbsent then StoragePhase(h, o, current, plan, progress, position + 1)
    else
      var (h1, result) := RemoveAndRecord(h, o, current, plan, plan.resources[position].resource);
      if result.Done? then StoragePhase(h1, o, result.value, plan, progress, position + 1) else (h1, result)
  }

  function RemoveAndRecord(h: Host, o: Oracle, current: GenerationIndex, plan: DeletePlan, resource: ManagedResource)
    : (Host, Outcome<GenerationIndex>)
  {
    var (h1, removed) := RemoveResource(h, o, resource);
    match removed
    case Refused => (h1, Refused)
    case Recoverable => (h1, Recoverable)
    case Died => (h1, Died)
    case Done(_) => Publish(h1, o, current, RecordResourceAbsent(current, plan, resource))
  }

  /** Connecting to libvirt: the first call of an execution. */
  function Connect(h: Host, o: Oracle): (Host, Outcome<()>) {
    match Look(h, o)
    case Dead => (Enter(h, o), Died)
    case Unanswered => (Enter(h, o), Recoverable)
    case Answered => (Enter(h, o), Done(()))
  }

  predicate Coherent(index: GenerationIndex, plan: DeletePlan) {
    && ValidIndex(index)
    && index.deleteState.Some? && index.deleteState.value.Deleting?
    && index.deleteState.value.progress.plan == plan
  }

  function ProgressOf(index: GenerationIndex): InProgress
    requires index.deleteState.Some? && index.deleteState.value.Deleting?
  {
    index.deleteState.value.progress
  }

  /** One execution of the plan against the index its caller just read. */
  function ExecuteDeletePlan(h: Host, o: Oracle, index: GenerationIndex, plan: DeletePlan, a: Attempt)
    : (Host, Outcome<GenerationIndex>)
    requires Coherent(index, plan)
  {
    var (h1, connected) := Connect(h, o);
    if !connected.Done? then
      (h1, if connected.Died? then Died else Recoverable)
    else if ProgressOf(index).domain == UndefinePending then
      var (h2, undefined) := DomainPhase(h1, o, index, plan, a);
      if undefined.Done? then
        StorageAndComplete(h2, o, undefined.value, plan)
      else
        (h2, undefined)
    else
      StorageAndComplete(h1, o, index, plan)
  }

  function StorageAndComplete(h: Host, o: Oracle, current: GenerationIndex, plan: DeletePlan)
    : (Host, Outcome<GenerationIndex>)
  {
    if !(Coherent(current, plan)) then
      (h, Refused)
    else
      var (h1, stored) := StoragePhase(h, o, current, plan, ProgressOf(current).resources, 0);
      if stored.Done? then Publish(h1, o, stored.value, CompleteInstanceDelete(stored.value, plan)) else (h1, stored)
  }

  /**
   A later invocation of the delete command: re-reads the durable index and resumes its plan.
   A finished deletion is reported as such; an index without delete state is not resumed.
   */
  function Resume(h: Host, o: Oracle, a: Attempt): (Host, Outcome<()>) {
    if h.durable.None? || !ValidIndex(h.durable.value) then
      (h, Refused)
    else
      match h.durable.value.deleteState
      case None => (h, Refused)
      case Some(Deleted(_)) => (h, Done(()))
      case Some(Deleting(progress)) =>
        var (h1, executed) := ExecuteDeletePlan(h, o, h.durable.value, progress.plan, a);
        (h1, match executed
             case Done(_) => Done(())
             case Refused => Refused
             case Recoverable => Recoverable
             case Died => Died)
  }

  /** Any number of invocations one after the other, each started whatever became of the previous one. */
  function Invocations(h: Host, o: Oracle, attempts: seq<Attempt>): Host
    decreases |attempts|
  {
    if attempts == [] then h else Invocations(Resume(h, o, attempts[0]).0, o, attempts[1..])
  }
}
