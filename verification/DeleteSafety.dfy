/**
 Safety of deletion over every run: whatever other programs do between calls, and wherever calls
 fail or the process dies, each effect Forge has on the world was authorized by the durable plan.
 */
module DeleteSafety {
  import opened Results
  import opened DeleteState
  import opened DeleteHost
  import opened DeleteExecution

  /** No other program changes the world while Forge is at work; calls may still fail and crash. */
  ghost predicate Quiet(o: Oracle) {
    forall i: nat :: o(i).interference.None?
  }

  predicate RecordedDomainAbsent(durable: Option<GenerationIndex>, plan: DeletePlan) {
    && durable.Some?
    && Coherent(durable.value, plan)
    && ProgressOf(durable.value).domain == DomainAbsent
  }

  predicate RecordedDomainPending(durable: Option<GenerationIndex>, plan: DeletePlan) {
    && durable.Some?
    && Coherent(durable.value, plan)
    && ProgressOf(durable.value).domain == UndefinePending
  }

  /** The removed volume is an exact, unshared, unreferenced and still pending resource of the plan. */
  ghost predicate AuthorizedRemoval(plan: DeletePlan, found: Seen, r: ManagedResource, durable: Option<GenerationIndex>)
  {
    && r.role != SharedBase
    && RecordedDomainAbsent(durable, plan)
    && (exists i :: 0 <= i < |plan.resources| && plan.resources[i].resource == r
                 && ProgressOf(durable.value).resources[i] == DeletePending)
    && ExactVolume(found.volume, r) && !ReferencedByDomain(found.domains, r.path) && !BacksVolume(found.pool, r.path)
  }

  ghost predicate SafeEvent(plan: DeletePlan, quiet: bool, e: Event) {
    match e
    case DomainStopped(uuid, seen, at) =>
      && uuid == plan.domainUuid
      && (quiet ==> at == seen)
      && exists i :: && 0 <= i < |seen.domains|
                     && seen.domains[i].uuid == plan.domainUuid && seen.domains[i].state == Running
    case DomainUndefined(uuid, seen, at, durable) =>
      && uuid == plan.domainUuid
      && (quiet ==> at == seen)
      && RecordedDomainPending(durable, plan)
      && exists i :: 0 <= i < |seen.domains|
                  && seen.domains[i].name == plan.domainName && seen.domains[i].uuid == plan.domainUuid
                  && seen.domains[i].persistent && seen.domains[i].state == Shutoff
    case VolumeRemoved(resource, found, at, durable) =>
      && (quiet ==> at.domains == found.domains && at.volumes == found.pool && resource.path in at.volumes
                    && at.volumes[resource.path] == found.volume)
      && AuthorizedRemoval(plan, found, resource, durable)
    case IndexWritten(before, after) =>
      Checkpoint(before, after) && PlanOf(before) == Some(plan)
  }

  ghost predicate SafeHistory(plan: DeletePlan, quiet: bool, history: seq<Event>) {
    forall i :: 0 <= i < |history| ==> SafeEvent(plan, quiet, history[i])
  }

  /** What the durable index records as absent is absent. */
  predicate Truthful(world: World, index: GenerationIndex) {
    match index.deleteState
    case None => true
    case Some(Deleting(progress)) =>
      && (progress.domain == DomainAbsent ==> WithUuid(world.domains, progress.plan.domainUuid) == [])
      && (forall i :: && 0 <= i < |progress.plan.resources| && i < |progress.resources|
                      && progress.resources[i] == ResourceAbsent ==>
            progress.plan.resources[i].resource.path !in world.volumes)
    case Some(Deleted(plan)) =>
      && WithUuid(world.domains, plan.domainUuid) == []
      && forall i :: 0 <= i < |plan.resources| ==> plan.resources[i].resource.path !in world.volumes
  }

  /** The durable index is valid, belongs to this deletion, and is still the one the process holds. */
  ghost predicate Holds(h: Host, current: GenerationIndex, plan: DeletePlan, quiet: bool) {
    && h.durable == Some(current) && Coherent(current, plan) && SafeHistory(plan, quiet, h.history)
    && (quiet ==> Truthful(h.world, current))
  }

  /** Between invocations: the same deletion is durable, in progress or finished. */
  ghost predicate Owned(h: Host, plan: DeletePlan, quiet: bool) {
    && h.durable.Some? && ValidIndex(h.durable.value) && PlanOf(h.durable.value) == Some(plan)
    && SafeHistory(plan, quiet, h.history)
    && (quiet ==> Truthful(h.world, h.durable.value))
  }

  lemma FirstWithUuid(domains: seq<Domain>, uuid: string)
    requires WithUuid(domains, uuid) != []
    ensures exists i :: 0 <= i < |domains| && domains[i] == WithUuid(domains, uuid)[0]
    ensures WithUuid(domains, uuid)[0].uuid == uuid
  {
    if domains[0].uuid != uuid {
      FirstWithUuid(domains[1..], uuid);
      var i :| 0 <= i < |domains[1..]| && domains[1..][i] == WithUuid(domains[1..], uuid)[0];
      assert domains[i + 1] == WithUuid(domains, uuid)[0];
    }
  }

  lemma FirstWithName(domains: seq<Domain>, name: string)
    requires WithName(domains, name) != []
    ensures exists i :: 0 <= i < |domains| && domains[i] == WithName(domains, name)[0]
    ensures WithName(domains, name)[0].name == name
  {
    if domains[0].name != name {
      FirstWithName(domains[1..], name);
      var i :| 0 <= i < |domains[1..]| && domains[1..][i] == WithName(domains[1..], name)[0];
      assert domains[i + 1] == WithName(domains, name)[0];
    }
  }

  lemma PublishIsSafe(h: Host, o: Oracle, current: GenerationIndex, next: Result<GenerationIndex, StateError>,
                      plan: DeletePlan, quiet: bool)
    requires Holds(h, current, plan, quiet) && (quiet ==> Quiet(o))
    requires next.Success? ==> Checkpoint(current, next.value) && (quiet ==> Truthful(h.world, next.value))
    ensures var (h', result) := Publish(h, o, current, next);
            && Owned(h', plan, quiet)
            && (result.Done? ==> next.Success? && result.value == next.value && h'.durable == Some(next.value)
                                 && SafeHistory(plan, quiet, h'.history)
                                 && (quiet ==> Truthful(h'.world, next.value)))
  {
    hide Truthful, ValidIndex;
  }

  lemma ActIsSafe(h: Host, o: Oracle, e: Event, current: GenerationIndex, plan: DeletePlan, quiet: bool)
    requires Holds(h, current, plan, quiet)
    requires SafeEvent(plan, quiet, e) && !e.IndexWritten? && (quiet ==> Quiet(o))
    requires e.VolumeRemoved? || ProgressOf(current).domain == UndefinePending
    ensures Holds(Act(h, o, e), current, plan, quiet)
  {
  }

  lemma StopIsSafe(h: Host, o: Oracle, current: GenerationIndex, plan: DeletePlan, state: VmState, a: Attempt,
                   quiet: bool)
    requires Holds(h, current, plan, quiet) && (quiet ==> Quiet(o))
    requires ProgressOf(current).domain == UndefinePending
    ensures Holds(StopIfRunning(h, o, plan, state, a).0, current, plan, quiet)
  {
    hide Truthful, Checkpoint, ValidIndex;
    var h1 := Enter(h, o);
    var found := WithName(h1.world.domains, a.instance);
    if found != [] && found[0].uuid == plan.domainUuid && found[0].state == Running {
      FirstWithName(h1.world.domains, a.instance);
      ActIsSafe(h1, o, DomainStopped(plan.domainUuid, h1.world, Enter(h1, o).world), current, plan, quiet);
    }
    var stopped := ForceStop(h, o, a.instance, plan.domainUuid).0;
    assert Holds(stopped, current, plan, quiet);
    assert Holds(ObserveDomain(stopped, o, IdentityOf(plan)).0, current, plan, quiet);
  }

  lemma UndefineNowIsSafe(h: Host, o: Oracle, current: GenerationIndex, plan: DeletePlan, quiet: bool)
    requires Holds(h, current, plan, quiet) && (quiet ==> Quiet(o))
    requires ProgressOf(current).domain == UndefinePending
    requires exists i :: 0 <= i < |h.world.domains|
               && h.world.domains[i].name == plan.domainName && h.world.domains[i].uuid == plan.domainUuid
               && h.world.domains[i].persistent && h.world.domains[i].state == Shutoff
    ensures var (h', undefined) := UndefineNow(h, o, IdentityOf(plan));
            && Holds(h', current, plan, quiet)
            && (quiet && undefined == Returned(Success(())) ==> WithUuid(h'.world.domains, plan.domainUuid) == [])
  {
    var undefined := DomainUndefined(plan.domainUuid, h.world, Enter(h, o).world, h.durable);
    ActIsSafe(h, o, undefined, current, plan, quiet);
    assert Holds(ObserveDomain(Act(h, o, undefined), o, IdentityOf(plan)).0, current, plan, quiet);
  }

  lemma UndefineHandleIsSafe(h: Host, o: Oracle, current: GenerationIndex, plan: DeletePlan, quiet: bool)
    requires Holds(h, current, plan, quiet) && (quiet ==> Quiet(o))
    requires ProgressOf(current).domain == UndefinePending
    ensures var (h', undefined) := UndefineHandle(h, o, IdentityOf(plan));
            && Holds(h', current, plan, quiet)
            && (quiet && undefined == Returned(Success(())) ==> WithUuid(h'.world.domains, plan.domainUuid) == [])
  {
    var h1 := Enter(h, o);
    assert Holds(h1, current, plan, quiet);
    var found := WithUuid(h1.world.domains, plan.domainUuid);
    if found != [] {
      FirstWithUuid(h1.world.domains, plan.domainUuid);
      if found[0].name == plan.domainName && found[0].persistent && found[0].state == Shutoff {
        UndefineNowIsSafe(h1, o, current, plan, quiet);
      }
    }
  }

  lemma ObservationIsSafe(h: Host, o: Oracle, id: Identity, current: GenerationIndex, plan: DeletePlan, quiet: bool)
    requires Holds(h, current, plan, quiet) && (quiet ==> Quiet(o))
    ensures Holds(ObserveDomain(h, o, id).0, current, plan, quiet)
  {
    hide SafeHistory, Coherent, Truthful;
  }

  lemma UndefineExactIsSafe(h: Host, o: Oracle, current: GenerationIndex, plan: DeletePlan, quiet: bool)
    requires Holds(h, current, plan, quiet) && (quiet ==> Quiet(o))
    requires ProgressOf(current).domain == UndefinePending
    ensures var (h', undefined) := UndefineDomainExact(h, o, IdentityOf(plan));
            && Holds(h', current, plan, quiet)
            && (quiet && undefined == Returned(Success(())) ==> WithUuid(h'.world.domains, plan.domainUuid) == [])
  {
    ObservationIsSafe(h, o, IdentityOf(plan), current, plan, quiet);
    UndefineHandleIsSafe(ObserveDomain(h, o, IdentityOf(plan)).0, o, current, plan, quiet);
    hide Holds, UndefineHandle, WithUuid, ClassifyObservation;
  }

  lemma UndefineIsSafe(h: Host, o: Oracle, current: GenerationIndex, plan: DeletePlan, quiet: bool)
    requires Holds(h, current, plan, quiet) && (quiet ==> Quiet(o))
    requires ProgressOf(current).domain == UndefinePending
    ensures var (h', undefined) := UndefineDomain(h, o, plan);
            && Holds(h', current, plan, quiet)
            && (quiet && undefined.Done? ==> WithUuid(h'.world.domains, plan.domainUuid) == [])
  {
    UndefineExactIsSafe(h, o, current, plan, quiet);
    hide Holds, UndefineDomainExact, WithUuid;
  }

  lemma UndefineAndRecordIsSafe(h: Host, o: Oracle, current: GenerationIndex, plan: DeletePlan, quiet: bool)
    requires Holds(h, current, plan, quiet) && (quiet ==> Quiet(o))
    requires ProgressOf(current).domain == UndefinePending
    ensures var (h', result) := UndefineAndRecord(h, o, current, plan);
            && Owned(h', plan, quiet)
            && (result.Done? ==>
                  Holds(h', result.value, plan, quiet) && ProgressOf(result.value).domain == DomainAbsent)
  {
    UndefineIsSafe(h, o, current, plan, quiet);
    var (h1, undefined) := UndefineDomain(h, o, plan);
    if undefined.Done? {
      RecordDomainIsCheckpoint(current, plan);
      PublishIsSafe(h1, o, current, RecordDomainAbsent(current, plan), plan, quiet);
    }
  }

  lemma DomainPhaseIsSafe(h: Host, o: Oracle, current: GenerationIndex, plan: DeletePlan, a: Attempt, quiet: bool)
    requires Holds(h, current, plan, quiet) && (quiet ==> Quiet(o))
    requires ProgressOf(current).domain == UndefinePending
    ensures var (h', result) := DomainPhase(h, o, current, plan, a);
            && Owned(h', plan, quiet)
            && (result.Done? ==>
                  Holds(h', result.value, plan, quiet) && ProgressOf(result.value).domain == DomainAbsent)
  {
    hide StopIfRunning, UndefineAndRecord, RecordDomainAbsent, Publish, Checkpoint, SafeHistory;
    RecordDomainIsCheckpoint(current, plan);
    var next := RecordDomainAbsent(current, plan);
    var (h1, observed) := ObserveDomain(h, o, IdentityOf(plan));
    match observed
    case Returned(Success(Absent)) => PublishIsSafe(h1, o, current, next, plan, quiet);
    case Returned(Success(ExactPresent(_, state, _))) =>
      StopIsSafe(h1, o, current, plan, state, a, quiet);
      var (h2, stopped) := StopIfRunning(h1, o, plan, state, a);
      if stopped.Done? {
        UndefineAndRecordIsSafe(h2, o, current, plan, quiet);
      }
    case _ =>
  }

  lemma VolumeDeleteIsSafe(h: Host, o: Oracle, current: GenerationIndex, plan: DeletePlan, position: nat, quiet: bool)
    requires Holds(h, current, plan, quiet) && (quiet ==> Quiet(o))
    requires ProgressOf(current).domain == DomainAbsent
    requires position < |plan.resources| && ProgressOf(current).resources[position] == DeletePending
    ensures Holds(DeleteManagedVolumeExact(h, o, plan.resources[position].resource).0, current, plan, quiet)
  {
    hide ExactVolume, ReferencedByDomain, BacksVolume, Holds, DeleteUnbacked;
    var resource := plan.resources[position].resource;
    var h1 := Enter(h, o);
    var h2 := Enter(h1, o);
    EnteringIsSafe(h, o, current, plan, quiet);
    EnteringIsSafe(h1, o, current, plan, quiet);
    if && resource.role != SharedBase
       && !ReferencedByDomain(h1.world.domains, resource.path) && !BacksVolume(h2.world.volumes, resource.path) {
      UnbackedDeleteIsSafe(h2, o, current, plan, position, h1.world.domains, quiet);
    }
  }

  lemma EnteringIsSafe(h: Host, o: Oracle, current: GenerationIndex, plan: DeletePlan, quiet: bool)
    requires Holds(h, current, plan, quiet) && (quiet ==> Quiet(o))
    ensures Holds(Enter(h, o), current, plan, quiet) && (quiet ==> Enter(h, o).world == h.world)
  {
    hide SafeHistory, Coherent, Truthful;
  }

  lemma UnbackedDeleteIsSafe(h: Host, o: Oracle, current: GenerationIndex, plan: DeletePlan, position: nat,
                             domains: seq<Domain>, quiet: bool)
    requires Holds(h, current, plan, quiet) && (quiet ==> Quiet(o) && h.world.domains == domains)
    requires ProgressOf(current).domain == DomainAbsent
    requires position < |plan.resources| && ProgressOf(current).resources[position] == DeletePending
    requires plan.resources[position].resource.role != SharedBase
    requires !ReferencedByDomain(domains, plan.resources[position].resource.path)
    requires !BacksVolume(h.world.volumes, plan.resources[position].resource.path)
    ensures Holds(DeleteUnbacked(h, o, plan.resources[position].resource, domains).0, current, plan, quiet)
  {
    hide ExactVolume, ReferencedByDomain, BacksVolume, WithUuid;
    var resource := plan.resources[position].resource;
    var h1 := Enter(h, o);
    var h2 := Enter(h1, o);
    if resource.path in h1.world.volumes && ExactVolume(h1.world.volumes[resource.path], resource) {
      var found := Seen(domains, h.world.volumes, h1.world.volumes[resource.path]);
      var removed := VolumeRemoved(resource, found, h2.world, h2.durable);
      assert plan.resources[position].resource == resource;
      assert SafeEvent(plan, quiet, removed);
      assert SafeHistory(plan, quiet, h.history + [removed]);
    }
  }

  lemma ConfirmIsSafe(h: Host, o: Oracle, resource: ManagedResource, current: GenerationIndex, plan: DeletePlan,
                      quiet: bool)
    requires Holds(h, current, plan, quiet) && (quiet ==> Quiet(o))
    ensures var (h', verified) := ConfirmAbsent(h, o, resource);
            && Holds(h', current, plan, quiet)
            && (quiet && verified.Done? ==> resource.path !in h'.world.volumes)
  {
  }

  lemma RemoveIsSafe(h: Host, o: Oracle, current: GenerationIndex, plan: DeletePlan, position: nat, quiet: bool)
    requires Holds(h, current, plan, quiet) && (quiet ==> Quiet(o))
    requires ProgressOf(current).domain == DomainAbsent
    requires position < |plan.resources| && ProgressOf(current).resources[position] == DeletePending
    ensures var (h', removed) := RemoveResource(h, o, plan.resources[position].resource);
            && Holds(h', current, plan, quiet)
            && (quiet && removed.Done? ==> plan.resources[position].resource.path !in h'.world.volumes)
  {
    var resource := plan.resources[position].resource;
    VolumeDeleteIsSafe(h, o, current, plan, position, quiet);
    var h1 := DeleteManagedVolumeExact(h, o, resource).0;
    ConfirmIsSafe(h1, o, resource, current, plan, quiet);
    ConfirmIsSafe(ConfirmAbsent(h1, o, resource).0, o, resource, current, plan, quiet);
  }

  lemma RemoveAndRecordIsSafe(h: Host, o: Oracle, current: GenerationIndex, plan: DeletePlan, position: nat,
                              quiet: bool)
    requires Holds(h, current, plan, quiet) && (quiet ==> Quiet(o))
    requires ProgressOf(current).domain == DomainAbsent
    requires position < |plan.resources| && ProgressOf(current).resources[position] == DeletePending
    ensures var (h', result) := RemoveAndRecord(h, o, current, plan, plan.resources[position].resource);
            && Owned(h', plan, quiet)
            && (result.Done? ==> Holds(h', result.value, plan, quiet)
                                 && ProgressOf(result.value).domain == DomainAbsent
                                 && ProgressOf(result.value).resources
                                    == ProgressOf(current).resources[position := ResourceAbsent])
  {
    hide RemoveResource, RecordResourceAbsent, Publish, Checkpoint, SafeHistory;
    var resource := plan.resources[position].resource;
    RemoveIsSafe(h, o, current, plan, position, quiet);
    RecordResourceIsCheckpoint(current, plan, position);
    var (h1, removed) := RemoveResource(h, o, resource);
    if removed.Done? {
      PublishIsSafe(h1, o, current, RecordResourceAbsent(current, plan, resource), plan, quiet);
    }
  }

  lemma {:induction false} StoragePhaseIsSafe(
      h: Host, o: Oracle, current: GenerationIndex, plan: DeletePlan,
      progress: seq<ResourceProgress>, position: nat, quiet: bool)
    requires Holds(h, current, plan, quiet) && (quiet ==> Quiet(o))
    requires ProgressOf(current).domain == DomainAbsent
    requires |progress| == |plan.resources|
    requires forall i :: 0 <= i < |progress| ==>
               ProgressOf(current).resources[i] == if i < position then ResourceAbsent else progress[i]
    ensures var (h', result) := StoragePhase(h, o, current, plan, progress, position);
            && Owned(h', plan, quiet)
            && (result.Done? ==> Holds(h', result.value, plan, quiet)
                                 && ProgressOf(result.value).domain == DomainAbsent
                                 && forall i :: 0 <= i < |progress| ==>
                                      ProgressOf(result.value).resources[i] == ResourceAbsent)
    decreases |progress| - position
  {
    hide RemoveAndRecord, SafeHistory, Truthful;
    if position >= |progress| {
    } else if progress[position] == ResourceAbsent {
      StoragePhaseIsSafe(h, o, current, plan, progress, position + 1, quiet);
    } else {
      RemoveAndRecordIsSafe(h, o, current, plan, position, quiet);
      var (h1, result) := RemoveAndRecord(h, o, current, plan, plan.resources[position].resource);
      if result.Done? {
        StoragePhaseIsSafe(h1, o, result.value, plan, progress, position + 1, quiet);
      }
    }
  }

  lemma StorageAndCompleteIsSafe(h: Host, o: Oracle, current: GenerationIndex, plan: DeletePlan, quiet: bool)
    requires Holds(h, current, plan, quiet) && (quiet ==> Quiet(o))
    requires ProgressOf(current).domain == DomainAbsent
    ensures Owned(StorageAndComplete(h, o, current, plan).0, plan, quiet)
  {
    var progress := ProgressOf(current).resources;
    StoragePhaseIsSafe(h, o, current, plan, progress, 0, quiet);
    var (h1, stored) := StoragePhase(h, o, current, plan, progress, 0);
    if stored.Done? {
      CompleteIsCheckpoint(stored.value, plan);
      PublishIsSafe(h1, o, stored.value, CompleteInstanceDelete(stored.value, plan), plan, quiet);
    }
  }

  lemma ResumeIsSafe(h: Host, o: Oracle, a: Attempt, plan: DeletePlan, quiet: bool)
    requires Owned(h, plan, quiet) && (quiet ==> Quiet(o))
    ensures Owned(Resume(h, o, a).0, plan, quiet)
  {
    if h.durable.value.deleteState.value.Deleting? {
      var current := h.durable.value;
      var (h1, connected) := Connect(h, o);
      assert Holds(h1, current, plan, quiet);
      if connected.Done? {
        if ProgressOf(current).domain == UndefinePending {
          DomainPhaseIsSafe(h1, o, current, plan, a, quiet);
          var (h2, undefined) := DomainPhase(h1, o, current, plan, a);
          if undefined.Done? {
            StorageAndCompleteIsSafe(h2, o, undefined.value, plan, quiet);
          }
        } else {
          StorageAndCompleteIsSafe(h1, o, current, plan, quiet);
        }
      }
    }
  }

  /**
   Safety over every run. From published intent on, however many invocations follow and however
   each one ends, every recorded effect is authorized: stopped and undefined domains are the exact
   planned one, removed volumes are exact pending plan resources, and every index write is a
   checkpoint that strictly reduces what is left. If no other program interferes, each effect acted
   on the very world its checks had seen.
   */
  lemma {:induction false} EveryRunIsSafe(h: Host, o: Oracle, attempts: seq<Attempt>, plan: DeletePlan, quiet: bool)
    requires Owned(h, plan, quiet) && (quiet ==> Quiet(o))
    ensures Owned(Invocations(h, o, attempts), plan, quiet)
    decreases |attempts|
  {
    if attempts != [] {
      ResumeIsSafe(h, o, attempts[0], plan, quiet);
      EveryRunIsSafe(Resume(h, o, attempts[0]).0, o, attempts[1..], plan, quiet);
    }
  }

  /** Intent itself is the first owned state: it is published before any effect. */
  lemma BegunDeletionIsOwned(h: Host, index: GenerationIndex, plan: DeletePlan, quiet: bool)
    requires BeginInstanceDelete(index, plan).Success?
    requires h.durable == Some(BeginInstanceDelete(index, plan).value) && h.history == []
    ensures Owned(h, plan, quiet)
  {
    BeginSucceedsIff(index, plan);
  }
}
