/**
 Crash convergence of deletion. When no other program interferes, the world an uninterrupted run
 would reach stays the same whatever fails or crashes, and a later invocation without faults reaches
 it exactly when the current world is ready for deletion.
 */
module DeleteConvergence {
  import opened Results
  import opened DeleteState
  import opened DeleteHost
  import opened DeleteExecution
  import opened DeleteSafety

  /** From this turn on no call fails, crashes or meets interference. */
  ghost predicate Faultless(o: Oracle, from: nat) {
    forall i: nat :: i >= from ==> o(i) == Turn(None, Works)
  }

  /** All domains but the planned one. */
  function Survivors(domains: seq<Domain>, uuid: string): seq<Domain> {
    if domains == [] then []
    else (if domains[0].uuid == uuid then [] else [domains[0]]) + Survivors(domains[1..], uuid)
  }

  /** The planned resources without a durable absence record, from a plan position on. */
  function Pending(plan: DeletePlan, progress: seq<ResourceProgress>, position: nat): seq<ManagedResource>
    requires |progress| == |plan.resources|
    decreases |progress| - position
  {
    if position >= |progress| then []
    else (if progress[position] == ResourceAbsent then [] else [plan.resources[position].resource])
         + Pending(plan, progress, position + 1)
  }

  /** Unreferenced by domains, not backing any volume, and either gone or exactly as planned. */
  predicate Deletable(world: World, r: ManagedResource) {
    && r.role != SharedBase
    && !ReferencedByDomain(world.domains, r.path) && !BacksVolume(world.volumes, r.path)
    && (r.path in world.volumes ==> ExactVolume(world.volumes[r.path], r))
  }

  function Without(world: World, r: ManagedResource): World {
    world.(volumes := world.volumes - {r.path})
  }

  /** Every pending volume is deletable once those before it are gone. */
  predicate StorageReady(world: World, pending: seq<ManagedResource>)
    decreases |pending|
  {
    pending == [] || (Deletable(world, pending[0]) && StorageReady(Without(world, pending[0]), pending[1..]))
  }

  function RemoveAll(world: World, pending: seq<ManagedResource>): World
    decreases |pending|
  {
    if pending == [] then world else RemoveAll(Without(world, pending[0]), pending[1..])
  }

  /** The planned domain is absent, or it is the exact persistent one, shutoff or running. */
  predicate DomainReady(domains: seq<Domain>, plan: DeletePlan) {
    match ClassifyObservation(IdentityOf(plan), domains)
    case Absent => true
    case Conflict => false
    case ExactPresent(_, state, persistent) => persistent && (state == Shutoff || state == Running)
  }

  /** A running domain further needs a confirmed force-stop bound to its own name. */
  predicate AttemptReady(domains: seq<Domain>, plan: DeletePlan, a: Attempt) {
    match ClassifyObservation(IdentityOf(plan), domains)
    case ExactPresent(_, Running, _) => a.force && a.confirmed && a.instance == plan.domainName
    case _ => true
  }

  function AfterUndefine(world: World, plan: DeletePlan): World {
    world.(domains := Survivors(world.domains, plan.domainUuid))
  }

  /** The world in which the storage loop runs. */
  function StorageWorld(world: World, progress: InProgress): World {
    if progress.domain == UndefinePending then AfterUndefine(world, progress.plan) else world
  }

  predicate WorldReady(world: World, progress: InProgress)
    requires |progress.resources| == |progress.plan.resources|
  {
    && (progress.domain == UndefinePending ==> DomainReady(world.domains, progress.plan))
    && StorageReady(StorageWorld(world, progress), Pending(progress.plan, progress.resources, 0))
  }

  /** What an uninterrupted run makes of the world. */
  function FinalWorld(world: World, progress: InProgress): World
    requires |progress.resources| == |progress.plan.resources|
  {
    RemoveAll(StorageWorld(world, progress), Pending(progress.plan, progress.resources, 0))
  }

  function Tombstone(index: GenerationIndex, plan: DeletePlan): GenerationIndex {
    index.(deleteState := Some(Deleted(plan)))
  }

  /** The same deletion is durable and the world is ready and bound for the same end. */
  ghost predicate Bound(h: Host, plan: DeletePlan, tombstone: GenerationIndex, end: World) {
    && h.durable.Some? && ValidIndex(h.durable.value) && PlanOf(h.durable.value) == Some(plan)
    && Tombstone(h.durable.value, plan) == tombstone
    && match h.durable.value.deleteState.value
       case Deleted(_) => h.world == end
       case Deleting(progress) => WorldReady(h.world, progress) && FinalWorld(h.world, progress) == end
  }

  /** While an execution runs: additionally the process holds the durable index in memory. */
  ghost predicate BoundHolding(h: Host, current: GenerationIndex, plan: DeletePlan, tombstone: GenerationIndex,
                               end: World)
  {
    h.durable == Some(current) && Coherent(current, plan) && Bound(h, plan, tombstone, end)
  }

  // ---------------------------------------------------------------- the domain list

  lemma {:induction false} NoneWithUuid(domains: seq<Domain>, uuid: string)
    requires WithUuid(domains, uuid) == []
    ensures Survivors(domains, uuid) == domains
    ensures UndefineByUuid(domains, uuid) == domains
    ensures DestroyByUuid(domains, uuid) == domains
  {
    if domains != [] {
      NoneWithUuid(domains[1..], uuid);
    }
  }

  lemma {:induction false} NoSurvivorWithUuid(domains: seq<Domain>, uuid: string)
    ensures WithUuid(Survivors(domains, uuid), uuid) == []
    ensures Survivors(DestroyByUuid(domains, uuid), uuid) == Survivors(domains, uuid)
    ensures Survivors(UndefineByUuid(domains, uuid), uuid) == Survivors(domains, uuid)
  {
    if domains != [] {
      NoSurvivorWithUuid(domains[1..], uuid);
      var tail := domains[1..];
      SurvivorsOfCons(domains[0], Survivors(tail, uuid), uuid);
      SurvivorsOfCons(domains[0].(state := Shutoff), DestroyByUuid(tail, uuid), uuid);
      SurvivorsOfCons(domains[0], DestroyByUuid(tail, uuid), uuid);
      SurvivorsOfCons(domains[0], UndefineByUuid(tail, uuid), uuid);
      SurvivorsOfCons(domains[0].(persistent := false), UndefineByUuid(tail, uuid), uuid);
      assert [] + DestroyByUuid(tail, uuid) == DestroyByUuid(tail, uuid);
      assert [] + UndefineByUuid(tail, uuid) == UndefineByUuid(tail, uuid);
      assert [] + Survivors(tail, uuid) == Survivors(tail, uuid);
    }
  }

  lemma SurvivorsOfCons(head: Domain, tail: seq<Domain>, uuid: string)
    ensures ([head] + tail)[1..] == tail
    ensures Survivors([head] + tail, uuid) == (if head.uuid == uuid then [] else [head]) + Survivors(tail, uuid)
    ensures WithUuid([head] + tail, uuid) == (if head.uuid == uuid then [head] else []) + WithUuid(tail, uuid)
    ensures forall name ::
              WithName([head] + tail, name) == (if head.name == name then [head] else []) + WithName(tail, name)
  {
    assert ([head] + tail)[1..] == tail;
  }

  /** What destroying or undefining does to the matches of an exactly identified domain. */
  lemma {:induction false} ExactDomainChanges(domains: seq<Domain>, id: Identity, d: Domain)
    requires WithName(domains, id.name) == [d] && WithUuid(domains, id.uuid) == [d]
    ensures d.persistent ==>
              && WithName(DestroyByUuid(domains, id.uuid), id.name) == [d.(state := Shutoff)]
              && WithUuid(DestroyByUuid(domains, id.uuid), id.uuid) == [d.(state := Shutoff)]
    ensures !d.persistent ==> WithUuid(DestroyByUuid(domains, id.uuid), id.uuid) == []
    ensures d.state == Shutoff ==> UndefineByUuid(domains, id.uuid) == Survivors(domains, id.uuid)
    ensures WithName(Survivors(domains, id.uuid), id.name) == []
    decreases |domains|
  {
    var head, tail := domains[0], domains[1..];
    if head.uuid == id.uuid {
      assert WithUuid(tail, id.uuid) == [] by {
        assert WithUuid(domains, id.uuid) == [head] + WithUuid(tail, id.uuid);
        assert |WithUuid(tail, id.uuid)| == 0;
      }
      NoneWithUuid(tail, id.uuid);
      OnlyName(domains, id, d);
      SurvivorsOfCons(d.(state := Shutoff), tail, id.uuid);
      assert [] + tail == tail;
    } else {
      assert WithUuid(tail, id.uuid) == [d];
      OnlyName(domains, id, d);
      if head.name == id.name {
        assert false;
      }
      assert WithName(tail, id.name) == [d];
      ExactDomainChanges(tail, id, d);
      SurvivorsOfCons(head, DestroyByUuid(tail, id.uuid), id.uuid);
      SurvivorsOfCons(head, Survivors(tail, id.uuid), id.uuid);
    }
  }

  lemma OnlyName(domains: seq<Domain>, id: Identity, d: Domain)
    requires domains != []
    requires WithName(domains, id.name) == [d] && WithUuid(domains, id.uuid) == [d]
    ensures d.name == id.name && d.uuid == id.uuid
    ensures domains[0].name == id.name <==> domains[0].uuid == id.uuid
    ensures domains[0].uuid == id.uuid ==> domains[0] == d && WithName(domains[1..], id.name) == []
  {
    FirstWithUuid(domains, id.uuid);
    FirstWithName(domains, id.name);
    var names, uuids := WithName(domains[1..], id.name), WithUuid(domains[1..], id.uuid);
    if domains[0].name == id.name {
      assert WithName(domains, id.name) == [domains[0]] + names;
      assert domains[0] == d;
      assert |names| == 0;
    }
    if domains[0].uuid == id.uuid {
      assert WithUuid(domains, id.uuid) == [domains[0]] + uuids;
      assert domains[0] == d;
    }
  }

  /** An exact observation pins one list entry, found alike by name and by UUID. */
  lemma ExactObservation(domains: seq<Domain>, id: Identity) returns (d: Domain)
    requires ClassifyObservation(id, domains).ExactPresent?
    ensures WithUuid(domains, id.uuid) == [d] && d.name == id.name && d.uuid == id.uuid
    ensures WithName(domains, id.name) == [d]
    ensures ClassifyObservation(id, domains) == ExactPresent(id, d.state, d.persistent)
  {
    d := WithUuid(domains, id.uuid)[0];
    var e := WithName(domains, id.name)[0];
    FirstWithUuid(domains, id.uuid);
    FirstWithName(domains, id.name);
    SameEntry(domains, id, e, d);
  }

  lemma {:induction false} SameEntry(domains: seq<Domain>, id: Identity, e: Domain, d: Domain)
    requires WithName(domains, id.name) == [e] && WithUuid(domains, id.uuid) == [d]
    requires SameSummary(e, d)
    ensures e == d
  {
    FirstWithName(domains, id.name);
    FirstWithUuid(domains, id.uuid);
    var head := domains[0];
    if head.uuid == id.uuid && head.name == id.name {
      assert WithName(domains, id.name)[0] == head;
      assert WithUuid(domains, id.uuid)[0] == head;
    } else if head.uuid == id.uuid || head.name == id.name {
      // The head is one of the two matches, and both carry the whole identity.
      assert false;
    } else {
      assert WithName(domains[1..], id.name) == [e] && WithUuid(domains[1..], id.uuid) == [d];
      SameEntry(domains[1..], id, e, d);
    }
  }

  // ---------------------------------------------------------------- the domain phase

  /** The domain list after a step of the domain phase, whatever became of that step. */
  ghost predicate DomainStep(before: World, after: World, uuid: string) {
    && after.volumes == before.volumes
    && (|| after.domains == before.domains
        || after.domains == DestroyByUuid(before.domains, uuid)
        || after.domains == Survivors(before.domains, uuid))
  }

  lemma DestroyWhileQuiet(h: Host, o: Oracle, id: Identity, d: Domain)
    requires Quiet(o)
    requires WithName(h.world.domains, id.name) == [d] && WithUuid(h.world.domains, id.uuid) == [d]
    ensures var (h', stopped) := DestroyAndWait(h, o, id.uuid);
            && h'.durable == h.durable && DomainStep(h.world, h'.world, id.uuid)
            && (stopped == Returned(Success(())) ==>
                  d.persistent && h'.world.domains == DestroyByUuid(h.world.domains, id.uuid))
  {
    hide WithName, Survivors;
    ExactDomainChanges(h.world.domains, id, d);
  }

  lemma ForceStopWhileQuiet(h: Host, o: Oracle, instance: string, id: Identity, d: Domain)
    requires Quiet(o)
    requires WithName(h.world.domains, id.name) == [d] && WithUuid(h.world.domains, id.uuid) == [d]
    ensures var (h', stopped) := ForceStop(h, o, instance, id.uuid);
            && h'.durable == h.durable && DomainStep(h.world, h'.world, id.uuid)
            && (stopped == Returned(Success(())) ==>
                  d.persistent && h'.world.domains == DestroyByUuid(h.world.domains, id.uuid))
  {
    DestroyWhileQuiet(Enter(h, o), o, id, d);
  }

  lemma StopWhileQuiet(h: Host, o: Oracle, plan: DeletePlan, state: VmState, persistent: bool, a: Attempt)
    requires Quiet(o)
    requires ClassifyObservation(IdentityOf(plan), h.world.domains) == ExactPresent(IdentityOf(plan), state, persistent)
    ensures var (h', stopped) := StopIfRunning(h, o, plan, state, a);
            && h'.durable == h.durable && DomainStep(h.world, h'.world, plan.domainUuid)
            && (stopped.Done? ==>
                  ClassifyObservation(IdentityOf(plan), h'.world.domains)
                  == ExactPresent(IdentityOf(plan), Shutoff, persistent))
  {
    hide Survivors, WithUuid;
    if state == Running {
      var id := IdentityOf(plan);
      var d := ExactObservation(h.world.domains, id);
      ForceStopWhileQuiet(h, o, a.instance, id, d);
      ExactDomainChanges(h.world.domains, id, d);
      if d.persistent {
        assert ClassifyObservation(id, DestroyByUuid(h.world.domains, id.uuid)) == ExactPresent(id, Shutoff, true);
      }
    }
  }

  lemma UndefineNowWhileQuiet(h: Host, o: Oracle, id: Identity, d: Domain)
    requires Quiet(o)
    requires WithName(h.world.domains, id.name) == [d] && WithUuid(h.world.domains, id.uuid) == [d]
    requires d.state == Shutoff
    ensures var (h', undefined) := UndefineNow(h, o, id);
            && h'.durable == h.durable && DomainStep(h.world, h'.world, id.uuid)
            && (undefined.Returned? && undefined.value.Success? ==>
                  h'.world.domains == Survivors(h.world.domains, id.uuid))
  {
    hide WithName, WithUuid, Survivors;
    ExactDomainChanges(h.world.domains, id, d);
  }

  lemma UndefineWhileQuiet(h: Host, o: Oracle, plan: DeletePlan, persistent: bool)
    requires Quiet(o)
    requires ClassifyObservation(IdentityOf(plan), h.world.domains)
         == ExactPresent(IdentityOf(plan), Shutoff, persistent)
    ensures var (h', undefined) := UndefineDomain(h, o, plan);
            && h'.durable == h.durable && DomainStep(h.world, h'.world, plan.domainUuid)
            && (undefined.Done? ==> h'.world.domains == Survivors(h.world.domains, plan.domainUuid))
  {
    hide Survivors, UndefineByUuid, WithName, WithUuid, UndefineNow;
    var id := IdentityOf(plan);
    var d := ExactObservation(h.world.domains, id);
    UndefineNowWhileQuiet(Enter(ObserveDomain(h, o, id).0, o), o, id, d);
  }

  /** No step of the domain phase moves the end, or takes readiness away. */
  lemma DomainStepKeepsEnd(before: World, after: World, progress: InProgress)
    requires |progress.resources| == |progress.plan.resources|
    requires progress.domain == UndefinePending
    requires WorldReady(before, progress) && DomainStep(before, after, progress.plan.domainUuid)
    ensures WorldReady(after, progress) && FinalWorld(after, progress) == FinalWorld(before, progress)
  {
    var id := IdentityOf(progress.plan);
    var survivors := Survivors(before.domains, id.uuid);
    NoSurvivorWithUuid(before.domains, id.uuid);
    NoneWithUuid(survivors, id.uuid);
    if ClassifyObservation(id, before.domains).Absent? {
      NoneWithUuid(before.domains, id.uuid);
    } else {
      var d := ExactObservation(before.domains, id);
      ExactDomainChanges(before.domains, id, d);
    }
    assert StorageWorld(after, progress) == StorageWorld(before, progress);
  }

  lemma UndefineAndRecordWhileQuiet(h: Host, o: Oracle, current: GenerationIndex, plan: DeletePlan, persistent: bool,
                                    tombstone: GenerationIndex, end: World)
    requires Quiet(o) && BoundHolding(h, current, plan, tombstone, end)
    requires ProgressOf(current).domain == UndefinePending
    requires ClassifyObservation(IdentityOf(plan), h.world.domains)
         == ExactPresent(IdentityOf(plan), Shutoff, persistent)
    ensures var (h', result) := UndefineAndRecord(h, o, current, plan);
            && Bound(h', plan, tombstone, end)
            && (result.Done? ==> BoundHolding(h', result.value, plan, tombstone, end)
                                 && ProgressOf(result.value).domain == DomainAbsent)
  {
    hide UndefineDomain, Publish, RecordDomainAbsent, FinalWorld, WorldReady, ClassifyObservation;
    UndefineWhileQuiet(h, o, plan, persistent);
    var (h1, undefined) := UndefineDomain(h, o, plan);
    DomainStepKeepsEnd(h.world, h1.world, ProgressOf(current));
    if undefined.Done? {
      NoSurvivorWithUuid(h.world.domains, plan.domainUuid);
      PublishDomain(h1, o, current, plan, tombstone, end);
    }
  }

  lemma DomainPhaseWhileQuiet(h: Host, o: Oracle, current: GenerationIndex, plan: DeletePlan, a: Attempt,
                              tombstone: GenerationIndex, end: World)
    requires Quiet(o) && BoundHolding(h, current, plan, tombstone, end)
    requires ProgressOf(current).domain == UndefinePending
    ensures var (h', result) := DomainPhase(h, o, current, plan, a);
            && Bound(h', plan, tombstone, end)
            && (result.Done? ==> BoundHolding(h', result.value, plan, tombstone, end)
                                 && ProgressOf(result.value).domain == DomainAbsent)
  {
    hide StopIfRunning, UndefineAndRecord, Publish, RecordDomainAbsent;
    var id, progress := IdentityOf(plan), ProgressOf(current);
    var (h1, observed) := ObserveDomain(h, o, id);
    match observed
    case Returned(Success(Absent)) => PublishDomain(h1, o, current, plan, tombstone, end);
    case Returned(Success(ExactPresent(_, state, persistent))) =>
      StopWhileQuiet(h1, o, plan, state, persistent, a);
      var (h2, stopped) := StopIfRunning(h1, o, plan, state, a);
      DomainStepKeepsEnd(h1.world, h2.world, progress);
      if stopped.Done? {
        UndefineAndRecordWhileQuiet(h2, o, current, plan, persistent, tombstone, end);
      }
    case _ =>
  }

  /** Once the planned domain is gone, recording that fact moves nothing. */
  lemma RecordedDomainKeepsEnd(world: World, progress: InProgress)
    requires |progress.resources| == |progress.plan.resources|
    requires WithUuid(world.domains, progress.plan.domainUuid) == []
    requires progress.domain == UndefinePending && WorldReady(world, progress)
    ensures var next := progress.(domain := DomainAbsent);
            WorldReady(world, next) && FinalWorld(world, next) == FinalWorld(world, progress)
  {
    NoneWithUuid(world.domains, progress.plan.domainUuid);
    assert AfterUndefine(world, progress.plan) == world;
  }

  lemma PublishDomain(h: Host, o: Oracle, current: GenerationIndex, plan: DeletePlan, tombstone: GenerationIndex,
                      end: World)
    requires Quiet(o) && BoundHolding(h, current, plan, tombstone, end)
    requires ProgressOf(current).domain == UndefinePending
    requires WithUuid(h.world.domains, plan.domainUuid) == []
    ensures var (h', result) := Publish(h, o, current, RecordDomainAbsent(current, plan));
            && Bound(h', plan, tombstone, end)
            && (result.Done? ==> BoundHolding(h', result.value, plan, tombstone, end)
                                 && ProgressOf(result.value).domain == DomainAbsent)
  {
    RecordDomainIsCheckpoint(current, plan);
    RecordedDomainKeepsEnd(h.world, ProgressOf(current));
    PublishWhileQuiet(h, o, current, RecordDomainAbsent(current, plan), plan, tombstone, end);
  }

  /** A checkpoint that keeps the end may be published, whether or not its write survives. */
  lemma PublishWhileQuiet(h: Host, o: Oracle, current: GenerationIndex, next: Result<GenerationIndex, StateError>,
                          plan: DeletePlan, tombstone: GenerationIndex, end: World)
    requires Quiet(o) && BoundHolding(h, current, plan, tombstone, end)
    requires next.Success? && Bound(h.(durable := Some(next.value)), plan, tombstone, end)
    ensures var (h', result) := Publish(h, o, current, next);
            && Bound(h', plan, tombstone, end)
            && h'.world == h.world
            && (result.Done? ==> result.value == next.value && h'.durable == Some(next.value))
  {
    hide FinalWorld, WorldReady, Tombstone;
  }

  // ---------------------------------------------------------------- the storage loop

  lemma {:induction false} PendingSkips(plan: DeletePlan, a: seq<ResourceProgress>, b: seq<ResourceProgress>, from: nat,
                                        to: nat)
    requires |a| == |b| == |plan.resources| && from <= to <= |a|
    requires forall i :: from <= i < to ==> a[i] == ResourceAbsent
    requires forall i :: to <= i < |a| ==> a[i] == b[i]
    ensures Pending(plan, a, from) == Pending(plan, b, to)
    decreases |a| - from
  {
    if from < to {
      PendingSkips(plan, a, b, from + 1, to);
      assert Pending(plan, a, from) == Pending(plan, a, from + 1);
    } else if from < |a| {
      PendingSkips(plan, a, b, from + 1, to + 1);
    }
  }

  lemma RemovalRepeats(world: World, pending: seq<ManagedResource>)
    requires pending != [] && StorageReady(world, pending)
    ensures StorageReady(Without(world, pending[0]), pending)
    ensures RemoveAll(Without(world, pending[0]), pending) == RemoveAll(world, pending)
  {
    var r := pending[0];
    assert world.volumes - {r.path} - {r.path} == world.volumes - {r.path};
    assert Without(Without(world, r), r) == Without(world, r);
  }

  lemma RemoveWhileQuiet(h: Host, o: Oracle, r: ManagedResource)
    requires Quiet(o) && Deletable(h.world, r)
    ensures var (h', removed) := RemoveResource(h, o, r);
            && h'.durable == h.durable
            && (h'.world == h.world || h'.world == Without(h.world, r))
            && (removed.Done? ==> h'.world == Without(h.world, r))
  {
    hide DeleteManagedVolumeExact, ConfirmAbsent, Deletable;
    DeleteExactWhileQuiet(h, o, r);
    var h1 := DeleteManagedVolumeExact(h, o, r).0;
    ConfirmWhileQuiet(h1, o, r);
    ConfirmWhileQuiet(ConfirmAbsent(h1, o, r).0, o, r);
  }

  lemma DeleteExactWhileQuiet(h: Host, o: Oracle, r: ManagedResource)
    requires Quiet(o) && Deletable(h.world, r)
    ensures var (h', deleted) := DeleteManagedVolumeExact(h, o, r);
            && h'.durable == h.durable
            && (h'.world == h.world || h'.world == Without(h.world, r))
            && (deleted.Returned? && deleted.value.Success? ==> h'.world == Without(h.world, r))
            && (deleted.Returned? && deleted.value.Failure? ==> deleted.value.error == VolumeBackend)
  {
  }

  lemma ConfirmWhileQuiet(h: Host, o: Oracle, r: ManagedResource)
    requires Quiet(o)
    ensures var (h', confirmed) := ConfirmAbsent(h, o, r);
            && h'.durable == h.durable && h'.world == h.world
            && (confirmed.Done? ==> r.path !in h.world.volumes)
  {
  }

  /** Recording the head of the pending list leaves its tail pending. */
  lemma RecordedResourceKeepsEnd(world: World, progress: InProgress, position: nat)
    requires |progress.resources| == |progress.plan.resources|
    requires progress.domain == DomainAbsent && WorldReady(world, progress)
    requires position < |progress.resources| && progress.resources[position] == DeletePending
    requires forall i :: 0 <= i < position ==> progress.resources[i] == ResourceAbsent
    requires Without(world, progress.plan.resources[position].resource) == world
    ensures var next := progress.(resources := progress.resources[position := ResourceAbsent]);
            WorldReady(world, next) && FinalWorld(world, next) == FinalWorld(world, progress)
  {
    var plan := progress.plan;
    var recorded := progress.resources[position := ResourceAbsent];
    PendingSkips(plan, progress.resources, progress.resources, 0, position);
    PendingSkips(plan, recorded, progress.resources, 0, position + 1);
    var pending := Pending(plan, progress.resources, position);
    assert pending == [plan.resources[position].resource] + Pending(plan, progress.resources, position + 1);
    assert pending[1..] == Pending(plan, recorded, 0);
  }

  lemma RemoveAndRecordWhileQuiet(h: Host, o: Oracle, current: GenerationIndex, plan: DeletePlan, position: nat,
                                  tombstone: GenerationIndex, end: World)
    requires Quiet(o) && BoundHolding(h, current, plan, tombstone, end)
    requires ProgressOf(current).domain == DomainAbsent
    requires position < |plan.resources| && ProgressOf(current).resources[position] == DeletePending
    requires forall i :: 0 <= i < position ==> ProgressOf(current).resources[i] == ResourceAbsent
    ensures var (h', result) := RemoveAndRecord(h, o, current, plan, plan.resources[position].resource);
            && Bound(h', plan, tombstone, end)
            && (result.Done? ==>
                  && BoundHolding(h', result.value, plan, tombstone, end)
                  && ProgressOf(result.value).domain == DomainAbsent
                  && ProgressOf(result.value).resources == ProgressOf(current).resources[position := ResourceAbsent])
  {
    hide Publish, RemoveResource, RecordResourceAbsent;
    var progress, r := ProgressOf(current), plan.resources[position].resource;
    PendingSkips(plan, progress.resources, progress.resources, 0, position);
    var pending := Pending(plan, progress.resources, 0);
    assert pending[0] == r;
    RemovalRepeats(h.world, pending);
    RemoveWhileQuiet(h, o, r);
    var (h1, removed) := RemoveResource(h, o, r);
    if removed.Done? {
      assert Without(h1.world, r).volumes == h1.world.volumes;
      RecordResourceIsCheckpoint(current, plan, position);
      RecordedResourceKeepsEnd(h1.world, progress, position);
      PublishWhileQuiet(h1, o, current, RecordResourceAbsent(current, plan, r), plan, tombstone, end);
    }
  }

  lemma {:induction false} StoragePhaseWhileQuiet(
      h: Host, o: Oracle, current: GenerationIndex, plan: DeletePlan,
      progress: seq<ResourceProgress>, position: nat, tombstone: GenerationIndex, end: World)
    requires Quiet(o) && BoundHolding(h, current, plan, tombstone, end)
    requires ProgressOf(current).domain == DomainAbsent
    requires |progress| == |plan.resources|
    requires forall i :: 0 <= i < |progress| ==>
               ProgressOf(current).resources[i] == if i < position then ResourceAbsent else progress[i]
    ensures var (h', result) := StoragePhase(h, o, current, plan, progress, position);
            && Bound(h', plan, tombstone, end)
            && (result.Done? ==>
                  && BoundHolding(h', result.value, plan, tombstone, end)
                  && ProgressOf(result.value).domain == DomainAbsent
                  && forall i :: 0 <= i < |progress| ==> ProgressOf(result.value).resources[i] == ResourceAbsent)
    decreases |progress| - position
  {
    if position >= |progress| {
    } else if progress[position] == ResourceAbsent {
      StoragePhaseWhileQuiet(h, o, current, plan, progress, position + 1, tombstone, end);
    } else {
      RemoveAndRecordWhileQuiet(h, o, current, plan, position, tombstone, end);
      var (h1, result) := RemoveAndRecord(h, o, current, plan, plan.resources[position].resource);
      if result.Done? {
        StoragePhaseWhileQuiet(h1, o, result.value, plan, progress, position + 1, tombstone, end);
      }
    }
  }

  lemma StorageAndCompleteWhileQuiet(h: Host, o: Oracle, current: GenerationIndex, plan: DeletePlan,
                                     tombstone: GenerationIndex, end: World)
    requires Quiet(o) && BoundHolding(h, current, plan, tombstone, end)
    requires ProgressOf(current).domain == DomainAbsent
    ensures Bound(StorageAndComplete(h, o, current, plan).0, plan, tombstone, end)
  {
    var progress := ProgressOf(current).resources;
    StoragePhaseWhileQuiet(h, o, current, plan, progress, 0, tombstone, end);
    var (h1, stored) := StoragePhase(h, o, current, plan, progress, 0);
    if stored.Done? {
      var recorded := ProgressOf(stored.value).resources;
      PendingSkips(plan, recorded, recorded, 0, |recorded|);
      CompleteIsCheckpoint(stored.value, plan);
      PublishWhileQuiet(h1, o, stored.value, CompleteInstanceDelete(stored.value, plan), plan, tombstone, end);
    }
  }

  lemma ResumeWhileQuiet(h: Host, o: Oracle, a: Attempt, plan: DeletePlan, tombstone: GenerationIndex, end: World)
    requires Quiet(o) && Bound(h, plan, tombstone, end)
    ensures Bound(Resume(h, o, a).0, plan, tombstone, end)
  {
    if h.durable.value.deleteState.value.Deleting? {
      var current := h.durable.value;
      var (h1, connected) := Connect(h, o);
      if connected.Done? {
        if ProgressOf(current).domain == UndefinePending {
          DomainPhaseWhileQuiet(h1, o, current, plan, a, tombstone, end);
          var (h2, undefined) := DomainPhase(h1, o, current, plan, a);
          if undefined.Done? {
            StorageAndCompleteWhileQuiet(h2, o, undefined.value, plan, tombstone, end);
          }
        } else {
          StorageAndCompleteWhileQuiet(h1, o, current, plan, tombstone, end);
        }
      }
    }
  }

  /** However many invocations crash or fail, wherever they do, the end they are bound for stays the same. */
  lemma {:induction false} CrashesKeepTheEnd(h: Host, o: Oracle, attempts: seq<Attempt>, plan: DeletePlan,
                                             tombstone: GenerationIndex, end: World)
    requires Quiet(o) && Bound(h, plan, tombstone, end)
    ensures Bound(Invocations(h, o, attempts), plan, tombstone, end)
    decreases |attempts|
  {
    if attempts != [] {
      ResumeWhileQuiet(h, o, attempts[0], plan, tombstone, end);
      CrashesKeepTheEnd(Resume(h, o, attempts[0]).0, o, attempts[1..], plan, tombstone, end);
    }
  }
}
