/** The running process: the adapters and the delete loop as the program executes them, step by step. */
module DeleteProcess {
  import opened Results
  import opened DeleteState
  import opened DeleteHost
  import opened DeleteExecution

  class DeletionBackend {
    const oracle: Oracle
    var world: World
    var durable: Option<GenerationIndex>
    var turn: nat
    var history: seq<Event>

    constructor (oracle: Oracle, world: World, durable: Option<GenerationIndex>)
      ensures this.oracle == oracle && State() == Host(world, durable, 0, [])
    {
      this.oracle := oracle;
      this.world := world;
      this.durable := durable;
      turn := 0;
      history := [];
    }

    function State(): Host
      reads this
    {
      Host(world, durable, turn, history)
    }

    /** Starts the next call: the world may have changed meanwhile, and the call may fail or crash. */
    method Call() returns (answer: Answer, effective: bool)
      modifies this
      ensures State() == Enter(old(State()), oracle)
      ensures answer == Look(old(State()), oracle)
      ensures effective == TakesEffect(old(State()), oracle)
    {
      var t := oracle(turn);
      if t.interference.Some? {
        world := t.interference.value;
      }
      turn := turn + 1;
      match t.fault
      case Works => answer, effective := Answered, true;
      case FailsBefore => answer, effective := Unanswered, false;
      case FailsAfter => answer, effective := Unanswered, true;
      case CrashesBefore => answer, effective := Dead, false;
      case CrashesAfter => answer, effective := Dead, true;
    }

    method ObserveDomainForDelete(expected: Identity) returns (result: Step<Result<Observation, BackendError>>)
      modifies this
      ensures (State(), result) == ObserveDomain(old(State()), oracle, expected)
    {
      var answer, _ := Call();
      match answer
      case Answered => result := Returned(Success(ClassifyObservation(expected, world.domains)));
      case Unanswered => result := Returned(Failure(BackendError));
      case Dead => result := Crashed;
    }

    method UndefineExact(expected: Identity) returns (result: Step<Result<(), DomainDeleteError>>)
      modifies this
      ensures (State(), result) == UndefineDomainExact(old(State()), oracle, expected)
    {
      var observed := ObserveDomainForDelete(expected);
      if observed.Crashed? { return Crashed; }
      if observed.value.Failure? { return Returned(Failure(DomainBackend)); }
      var authorized := AuthorizeUndefine(expected, observed.value.value);
      if authorized.Failure? { return Returned(authorized); }

      var answer, _ := Call();
      if answer.Dead? { return Crashed; }
      if answer.Unanswered? { return Returned(Failure(DomainBackend)); }
      var found := WithUuid(world.domains, expected.uuid);
      if found == [] { return Returned(Failure(DomainBackend)); }
      var immediate := ExactPresent(Identity(found[0].name, found[0].uuid), found[0].state, found[0].persistent);
      authorized := AuthorizeUndefine(expected, immediate);
      if authorized.Failure? { return Returned(authorized); }

      result := UndefineBoundHandle(expected);
    }

    /** Undefines the domain already looked up and authorized, then proves it is gone. */
    method UndefineBoundHandle(expected: Identity) returns (result: Step<Result<(), DomainDeleteError>>)
      modifies this
      ensures (State(), result) == UndefineNow(old(State()), oracle, expected)
    {
      var seen := world;
      var answer, effective := Call();
      if WithUuid(world.domains, expected.uuid) == [] {
        return if answer.Dead? then Crashed else Returned(Failure(DomainBackend));
      }
      if effective {
        history := history + [DomainUndefined(expected.uuid, seen, world, durable)];
        world := world.(domains := UndefineByUuid(world.domains, expected.uuid));
      }
      if answer.Dead? { return Crashed; }
      if answer.Unanswered? { return Returned(Failure(DomainBackend)); }
      var remaining := ObserveDomainForDelete(expected);
      match remaining
      case Crashed => result := Crashed;
      case Returned(Failure(_)) => result := Returned(Failure(DomainBackend));
      case Returned(Success(Absent)) => result := Returned(Success(()));
      case Returned(Success(ExactPresent(_, _, _))) => result := Returned(Failure(UnsafeState));
      case Returned(Success(Conflict)) => result := Returned(Failure(DomainConflict));
    }

    method ForceStopAndWait(instance: string, uuid: string) returns (result: Step<Result<(), BackendError>>)
      modifies this
      ensures (State(), result) == ForceStop(old(State()), oracle, instance, uuid)
    {
      var answer, _ := Call();
      if answer.Dead? { return Crashed; }
      if answer.Unanswered? { return Returned(Failure(BackendError)); }
      var bound := WithName(world.domains, instance);
      if bound == [] || bound[0].uuid != uuid || bound[0].state != Running {
        return Returned(Failure(BackendError));
      }
      var seen := world;
      var destroyed, effective := Call();
      if effective {
        history := history + [DomainStopped(uuid, seen, world)];
        world := world.(domains := DestroyByUuid(world.domains, uuid));
      }
      if destroyed.Dead? { return Crashed; }
      if destroyed.Unanswered? { return Returned(Failure(BackendError)); }
      var polled, _ := Call();
      if polled.Dead? { return Crashed; }
      if polled.Unanswered? { return Returned(Failure(BackendError)); }
      var found := WithUuid(world.domains, uuid);
      result := Returned(if found != [] && found[0].state == Shutoff then Success(()) else Failure(BackendError));
    }

    method DeleteVolumeExact(expected: ManagedResource) returns (result: Step<Result<(), VolumeDeleteError>>)
      modifies this
      ensures (State(), result) == DeleteManagedVolumeExact(old(State()), oracle, expected)
    {
      if expected.role == SharedBase { return Returned(Failure(SharedBaseForbidden)); }
      var answer, _ := Call();
      if answer.Dead? { return Crashed; }
      if answer.Unanswered? { return Returned(Failure(VolumeBackend)); }
      if ReferencedByDomain(world.domains, expected.path) { return Returned(Failure(Referenced)); }
      var domains := world.domains;
      var listed, _ := Call();
      if listed.Dead? { return Crashed; }
      if listed.Unanswered? { return Returned(Failure(VolumeBackend)); }
      if BacksVolume(world.volumes, expected.path) { return Returned(Failure(Referenced)); }
      var pool := world.volumes;
      var described, _ := Call();
      if described.Dead? { return Crashed; }
      if described.Unanswered? { return Returned(Failure(VolumeBackend)); }
      if expected.path !in world.volumes { return Returned(Failure(VolumeBackend)); }
      if !ExactVolume(world.volumes[expected.path], expected) { return Returned(Failure(IdentityMismatch)); }
      var found := Seen(domains, pool, world.volumes[expected.path]);
      var deleted, effective := Call();
      if expected.path !in world.volumes {
        return if deleted.Dead? then Crashed else Returned(Failure(VolumeBackend));
      }
      if effective {
        history := history + [VolumeRemoved(expected, found, world, durable)];
        world := world.(volumes := world.volumes - {expected.path});
      }
      match deleted
      case Answered => result := Returned(Success(()));
      case Unanswered => result := Returned(Failure(VolumeBackend));
      case Dead => result := Crashed;
    }

    method VerifyVolumeAbsent(expected: ManagedResource) returns (result: Step<Result<(), AbsenceError>>)
      modifies this
      ensures (State(), result) == VerifyManagedVolumeAbsent(old(State()), oracle, expected)
    {
      var answer, _ := Call();
      match answer
      case Dead => result := Crashed;
      case Unanswered => result := Returned(Failure(AbsenceBackend));
      case Answered => result := Returned(if expected.path in world.volumes then Failure(Present) else Success(()));
    }

    method PersistIndex(expected: GenerationIndex, next: GenerationIndex)
      returns (result: Step<Result<(), BackendError>>)
      modifies this
      ensures (State(), result) == PersistDeleteIndex(old(State()), oracle, expected, next)
    {
      var answer, effective := Call();
      if durable != Some(expected) || !ValidIndex(expected) || !ValidIndex(next) {
        return if answer.Dead? then Crashed else Returned(Failure(BackendError));
      }
      if effective {
        history := history + [IndexWritten(expected, next)];
        durable := Some(next);
      }
      match answer
      case Answered => result := Returned(Success(()));
      case Unanswered => result := Returned(Failure(BackendError));
      case Dead => result := Crashed;
    }

    /** Computes nothing new: publishes a transition that the pure state module produced. */
    method PublishTransition(current: GenerationIndex, next: Result<GenerationIndex, StateError>)
      returns (result: Outcome<GenerationIndex>)
      modifies this
      ensures (State(), result) == Publish(old(State()), oracle, current, next)
    {
      if next.Failure? { return Refused; }
      var persisted := PersistIndex(current, next.value);
      match persisted
      case Crashed => result := Died;
      case Returned(Failure(_)) => result := Recoverable;
      case Returned(Success(_)) => result := Done(next.value);
    }

    method StopRunningDomain(plan: DeletePlan, state: VmState, a: Attempt) returns (result: Outcome<()>)
      modifies this
      ensures (State(), result) == StopIfRunning(old(State()), oracle, plan, state, a)
    {
      if state == Shutoff { return Done(()); }
      if state != Running { return Refused; }
      if !a.force { return Refused; }
      if !a.confirmed { return Recoverable; }
      var stopped := ForceStopAndWait(a.instance, plan.domainUuid);
      if stopped.Crashed? { return Died; }
      if stopped.value.Failure? { return Recoverable; }
      var observed := ObserveDomainForDelete(IdentityOf(plan));
      match observed
      case Crashed => result := Died;
      case Returned(Failure(_)) => result := Recoverable;
      case Returned(Success(Conflict)) => result := Refused;
      case Returned(Success(Absent)) => result := Recoverable;
      case Returned(Success(ExactPresent(_, now, _))) => result := if now == Shutoff then Done(()) else Recoverable;
    }

    method FinishDomain(current: GenerationIndex, plan: DeletePlan, a: Attempt)
      returns (result: Outcome<GenerationIndex>)
      modifies this
      ensures (State(), result) == DomainPhase(old(State()), oracle, current, plan, a)
    {
      var observed := ObserveDomainForDelete(IdentityOf(plan));
      if observed.Crashed? { return Died; }
      if observed.value.Failure? { return Recoverable; }
      match observed.value.value
      case Conflict => result := Refused;
      case Absent => result := PublishTransition(current, RecordDomainAbsent(current, plan));
      case ExactPresent(_, state, _) =>
        var stopped := StopRunningDomain(plan, state, a);
        match stopped {
          case Refused => return Refused;
          case Recoverable => return Recoverable;
          case Died => return Died;
          case Done(_) =>
        }
        var undefined := UndefineExact(IdentityOf(plan));
        match undefined {
          case Crashed => return Died;
          case Returned(Failure(DomainBackend)) => return Recoverable;
          case Returned(Failure(_)) => return Refused;
          case Returned(Success(_)) =>
        }
        result := PublishTransition(current, RecordDomainAbsent(current, plan));
    }

    method ProveAbsent(resource: ManagedResource) returns (result: Outcome<()>)
      modifies this
      ensures (State(), result) == ConfirmAbsent(old(State()), oracle, resource)
    {
      var verified := VerifyVolumeAbsent(resource);
      match verified
      case Crashed => result := Died;
      case Returned(Success(_)) => result := Done(());
      case Returned(Failure(Present)) => result := Refused;
      case Returned(Failure(AbsenceBackend)) => result := Recoverable;
    }

    method RemovePlannedVolume(resource: ManagedResource) returns (result: Outcome<()>)
      modifies this
      ensures (State(), result) == RemoveResource(old(State()), oracle, resource)
    {
      if resource.role == SharedBase { return Refused; }
      var deleted := DeleteVolumeExact(resource);
      match deleted {
        case Crashed => return Died;
        case Returned(Success(_)) =>
        case Returned(Failure(VolumeBackend)) =>
          var excused := ProveAbsent(resource);
          if !excused.Done? { return excused; }
        case Returned(Failure(_)) => return Refused;
      }
      result := ProveAbsent(resource);
    }

    /** The whole execution, with the in-memory index advanced after every published checkpoint. */
    method ExecuteDeletePlanInner(index: GenerationIndex, plan: DeletePlan, a: Attempt)
      returns (result: Outcome<GenerationIndex>)
      requires Coherent(index, plan)
      modifies this
      ensures (State(), result) == ExecuteDeletePlan(old(State()), oracle, index, plan, a)
    {
      hide DomainPhase, RemoveResource, Publish, RecordResourceAbsent, CompleteInstanceDelete;
      var current := index;
      var answer, _ := Call();
      if answer.Dead? { return Died; }
      if answer.Unanswered? { return Recoverable; }
      if ProgressOf(current).domain == UndefinePending {
        var finished := FinishDomain(current, plan, a);
        if !finished.Done? { return finished; }
        current := finished.value;
      }
      if !Coherent(current, plan) { return Refused; }
      ghost var started, first := State(), current;
      var progress := ProgressOf(current).resources;
      var position := 0;
      while position < |progress|
        invariant position <= |progress|
        invariant StoragePhase(State(), oracle, current, plan, progress, position)
               == StoragePhase(started, oracle, first, plan, progress, 0)
      {
        if progress[position] == DeletePending {
          var resource := plan.resources[position].resource;
          var removed := RemovePlannedVolume(resource);
          match removed {
            case Refused => return Refused;
            case Recoverable => return Recoverable;
            case Died => return Died;
            case Done(_) =>
          }
          var recorded := PublishTransition(current, RecordResourceAbsent(current, plan, resource));
          if !recorded.Done? { return recorded; }
          current := recorded.value;
        }
        position := position + 1;
      }
      result := PublishTransition(current, CompleteInstanceDelete(current, plan));
    }
  }
}
