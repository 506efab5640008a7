/**
 Completion of deletion: exactly when an invocation without faults finishes, what it leaves behind,
 and that any history of crashes before it makes no difference.
 */
module DeleteCompletion {
  import opened Results
  import opened DeleteState
  import opened DeleteHost
  import opened DeleteExecution
  import opened DeleteSafety
  import opened DeleteConvergence

  lemma StopFaultless(h: Host, o: Oracle, plan: DeletePlan, state: VmState, persistent: bool, a: Attempt)
    requires Faultless(o, h.turn)
    requires ClassifyObservation(IdentityOf(plan), h.world.domains) == ExactPresent(IdentityOf(plan), state, persistent)
    ensures var (h', stopped) := StopIfRunning(h, o, plan, state, a);
            && h'.turn >= h.turn && h'.durable == h.durable && h'.world.volumes == h.world.volumes
            && (stopped.Done? <==>
                  || state == Shutoff
                  || (state == Running && persistent && a.force && a.confirmed && a.instance == plan.domainName))
            && (stopped.Done? ==>
                  && ClassifyObservation(IdentityOf(plan), h'.world.domains)
                     == ExactPresent(IdentityOf(plan), Shutoff, persistent)
                  && Survivors(h'.world.domains, plan.domainUuid) == Survivors(h.world.domains, plan.domainUuid))
  {
    hide Survivors, WithUuid;
    var id := IdentityOf(plan);
    var d := ExactObservation(h.world.domains, id);
    if state == Running && a.force && a.confirmed {
      var found := WithName(h.world.domains, a.instance);
      if found != [] && found[0].uuid == id.uuid {
        OnlyUuid(h.world.domains, a.instance, id, d);
        ExactDomainChanges(h.world.domains, id, d);
        NoSurvivorWithUuid(h.world.domains, id.uuid);
        if persistent {
          assert ClassifyObservation(id, DestroyByUuid(h.world.domains, id.uuid)) == ExactPresent(id, Shutoff, true);
        }
      } else {
        assert a.instance != plan.domainName;
      }
    }
  }

  /** Only the exact domain can be found first under an instance name and carry its UUID. */
  lemma OnlyUuid(domains: seq<Domain>, instance: string, id: Identity, d: Domain)
    requires WithUuid(domains, id.uuid) == [d] && d.name == id.name
    requires WithName(domains, instance) != [] && WithName(domains, instance)[0].uuid == id.uuid
    ensures instance == id.name && WithName(domains, instance)[0] == d
  {
    FirstWithName(domains, instance);
    var found := WithName(domains, instance)[0];
    var i :| 0 <= i < |domains| && domains[i] == found;
    ListedByUuid(domains, id.uuid, i);
  }

  lemma {:induction false} ListedByUuid(domains: seq<Domain>, uuid: string, i: nat)
    requires i < |domains| && domains[i].uuid == uuid
    ensures domains[i] in WithUuid(domains, uuid)
  {
    if i > 0 {
      ListedByUuid(domains[1..], uuid, i - 1);
    }
  }

  lemma UndefineFaultless(h: Host, o: Oracle, plan: DeletePlan, persistent: bool)
    requires Faultless(o, h.turn)
    requires ClassifyObservation(IdentityOf(plan), h.world.domains)
         == ExactPresent(IdentityOf(plan), Shutoff, persistent)
    ensures var (h', undefined) := UndefineDomain(h, o, plan);
            && h'.turn >= h.turn && h'.durable == h.durable
            && (undefined.Done? <==> persistent)
            && (undefined.Done? ==> h'.world == AfterUndefine(h.world, plan))
  {
    var id := IdentityOf(plan);
    var d := ExactObservation(h.world.domains, id);
    ExactDomainChanges(h.world.domains, id, d);
    NoSurvivorWithUuid(h.world.domains, id.uuid);
    assert ClassifyObservation(id, Survivors(h.world.domains, id.uuid)).Absent?;
  }

  lemma DomainPhaseFaultless(h: Host, o: Oracle, current: GenerationIndex, plan: DeletePlan, a: Attempt)
    requires Faultless(o, h.turn) && h.durable == Some(current) && Coherent(current, plan)
    requires ProgressOf(current).domain == UndefinePending
    ensures var (h', result) := DomainPhase(h, o, current, plan, a);
            && h'.turn >= h.turn
            && (result.Done? <==> DomainReady(h.world.domains, plan) && AttemptReady(h.world.domains, plan, a))
            && (result.Done? ==>
                  && h'.world == AfterUndefine(h.world, plan) && h'.durable == Some(result.value)
                  && RecordDomainAbsent(current, plan) == Success(result.value))
  {
    hide StopIfRunning, UndefineDomain, ValidIndex;
    RecordDomainIsCheckpoint(current, plan);
    var (h1, _) := ObserveDomain(h, o, IdentityOf(plan));
    match ClassifyObservation(IdentityOf(plan), h.world.domains)
    case Conflict =>
    case Absent =>
      NoneWithUuid(h.world.domains, plan.domainUuid);
      assert AfterUndefine(h.world, plan) == h.world;
    case ExactPresent(_, state, persistent) =>
      StopFaultless(h1, o, plan, state, persistent, a);
      var (h2, stopped) := StopIfRunning(h1, o, plan, state, a);
      if stopped.Done? {
        UndefineFaultless(h2, o, plan, persistent);
      }
  }

  lemma RemoveFaultless(h: Host, o: Oracle, r: ManagedResource)
    requires Faultless(o, h.turn)
    ensures var (h', removed) := RemoveResource(h, o, r);
            && h'.turn >= h.turn && h'.durable == h.durable
            && (removed.Done? <==> Deletable(h.world, r))
            && (removed.Done? ==> h'.world == Without(h.world, r))
  {
    if r.path !in h.world.volumes {
      assert h.world.volumes - {r.path} == h.world.volumes;
    }
  }

  lemma RemoveAndRecordFaultless(h: Host, o: Oracle, current: GenerationIndex, plan: DeletePlan, position: nat)
    requires Faultless(o, h.turn) && h.durable == Some(current) && Coherent(current, plan)
    requires ProgressOf(current).domain == DomainAbsent
    requires position < |plan.resources| && ProgressOf(current).resources[position] == DeletePending
    ensures var r := plan.resources[position].resource;
            var (h', result) := RemoveAndRecord(h, o, current, plan, r);
            && h'.turn >= h.turn && (result.Done? <==> Deletable(h.world, r))
            && (result.Done? ==>
                  && h'.world == Without(h.world, r)
                  && h'.durable == Some(result.value) && Coherent(result.value, plan)
                  && SameOwnership(current, result.value)
                  && ProgressOf(result.value).domain == DomainAbsent
                  && ProgressOf(result.value).resources
                     == ProgressOf(current).resources[position := ResourceAbsent])
  {
    hide RemoveResource, Deletable;
    RemoveFaultless(h, o, plan.resources[position].resource);
    RecordResourceIsCheckpoint(current, plan, position);
  }

  lemma {:induction false} StoragePhaseFaultless(
      h: Host, o: Oracle, current: GenerationIndex, plan: DeletePlan, progress: seq<ResourceProgress>, position: nat)
    requires Faultless(o, h.turn) && h.durable == Some(current) && Coherent(current, plan)
    requires ProgressOf(current).domain == DomainAbsent
    requires |progress| == |plan.resources|
    requires forall i :: 0 <= i < |progress| ==>
               ProgressOf(current).resources[i] == if i < position then ResourceAbsent else progress[i]
    ensures var (h', result) := StoragePhase(h, o, current, plan, progress, position);
            && h'.turn >= h.turn
            && (result.Done? <==> StorageReady(h.world, Pending(plan, progress, position)))
            && (result.Done? ==>
                  && h'.world == RemoveAll(h.world, Pending(plan, progress, position))
                  && h'.durable == Some(result.value) && Coherent(result.value, plan)
                  && SameOwnership(current, result.value)
                  && ProgressOf(result.value).domain == DomainAbsent
                  && forall i :: 0 <= i < |progress| ==> ProgressOf(result.value).resources[i] == ResourceAbsent)
    decreases |progress| - position
  {
    hide RemoveAndRecord, Deletable;
    if position >= |progress| {
    } else if progress[position] == ResourceAbsent {
      StoragePhaseFaultless(h, o, current, plan, progress, position + 1);
      assert Pending(plan, progress, position) == Pending(plan, progress, position + 1);
    } else {
      var r := plan.resources[position].resource;
      assert Pending(plan, progress, position)[1..] == Pending(plan, progress, position + 1);
      RemoveAndRecordFaultless(h, o, current, plan, position);
      var (h1, result) := RemoveAndRecord(h, o, current, plan, r);
      if result.Done? {
        StoragePhaseFaultless(h1, o, result.value, plan, progress, position + 1);
      }
    }
  }

  lemma StorageAndCompleteFaultless(h: Host, o: Oracle, current: GenerationIndex, plan: DeletePlan)
    requires Faultless(o, h.turn) && h.durable == Some(current) && Coherent(current, plan)
    requires ProgressOf(current).domain == DomainAbsent
    ensures var (h', result) := StorageAndComplete(h, o, current, plan);
            var pending := Pending(plan, ProgressOf(current).resources, 0);
            && (result.Done? <==> StorageReady(h.world, pending))
            && (result.Done? ==>
                  h'.world == RemoveAll(h.world, pending) && h'.durable == Some(Tombstone(current, plan)))
  {
    var progress := ProgressOf(current).resources;
    StoragePhaseFaultless(h, o, current, plan, progress, 0);
    var (h1, stored) := StoragePhase(h, o, current, plan, progress, 0);
    if stored.Done? {
      CompleteIsCheckpoint(stored.value, plan);
      assert Tombstone(stored.value, plan) == Tombstone(current, plan);
    }
  }

  /**
   Exactly when it works: an invocation that meets no fault finishes the deletion if and only if the
   world is ready for it and a running domain may be force-stopped. It then leaves the tombstone and
   the final world, and no other invocation result is possible for that world.
   */
  lemma FaultlessResumeSucceedsIff(h: Host, o: Oracle, a: Attempt, plan: DeletePlan)
    requires h.durable.Some? && Coherent(h.durable.value, plan) && Faultless(o, h.turn)
    ensures var (h', result) := Resume(h, o, a);
            var progress := ProgressOf(h.durable.value);
            && (result.Done? <==>
                  && WorldReady(h.world, progress)
                  && (progress.domain == UndefinePending ==> AttemptReady(h.world.domains, plan, a)))
            && (result.Done? ==>
                  && h'.durable == Some(Tombstone(h.durable.value, plan))
                  && h'.world == FinalWorld(h.world, progress))
  {
    var current := h.durable.value;
    var h1 := Connect(h, o).0;
    if ProgressOf(current).domain == UndefinePending {
      DomainPhaseFaultless(h1, o, current, plan, a);
      RecordDomainIsCheckpoint(current, plan);
      var (h2, undefined) := DomainPhase(h1, o, current, plan, a);
      if undefined.Done? {
        StorageAndCompleteFaultless(h2, o, undefined.value, plan);
      }
    } else {
      StorageAndCompleteFaultless(h1, o, current, plan);
    }
  }

  /**
   Crash convergence. From a ready world, let any invocations fail or crash anywhere; then one more
   without faults ends with the tombstone and exactly the world that a first, undisturbed invocation
   would have left.
   */
  lemma CrashConvergence(h: Host, faulty: Oracle, attempts: seq<Attempt>, faultless: Oracle, a: Attempt,
                         plan: DeletePlan)
    requires h.durable.Some? && Coherent(h.durable.value, plan)
    requires WorldReady(h.world, ProgressOf(h.durable.value))
    requires Quiet(faulty)
    requires Faultless(faultless, 0)
    requires a.force && a.confirmed && a.instance == plan.domainName
    ensures var crashed := Invocations(h, faulty, attempts);
            var (ended, result) := Resume(crashed, faultless, a);
            var (undisturbed, direct) := Resume(h, faultless, a);
            && result.Done? && direct.Done?
            && ended.world == undisturbed.world == FinalWorld(h.world, ProgressOf(h.durable.value))
            && ended.durable == undisturbed.durable == Some(Tombstone(h.durable.value, plan))
  {
    hide Invocations, FinalWorld, WorldReady, ExecuteDeletePlan;
    var tombstone := Tombstone(h.durable.value, plan);
    var end := FinalWorld(h.world, ProgressOf(h.durable.value));
    CrashesKeepTheEnd(h, faulty, attempts, plan, tombstone, end);
    var crashed := Invocations(h, faulty, attempts);
    FaultlessResumeSucceedsIff(h, faultless, a, plan);
    if crashed.durable.value.deleteState.value.Deleting? {
      FaultlessResumeSucceedsIff(crashed, faultless, a, plan);
    } else {
      assert crashed.durable.value == tombstone;
    }
  }

  // ---------------------------------------------------------------- readiness and the end, in plain terms

  predicate RemovedBefore(pending: seq<ManagedResource>, i: nat, path: string)
    requires i <= |pending|
  {
    exists j :: 0 <= j < i && pending[j].path == path
  }

  /** One pending resource, judged on the world before the storage loop starts. */
  ghost predicate DeletableInTurn(world: World, pending: seq<ManagedResource>, i: nat)
    requires i < |pending|
  {
    var r := pending[i];
    && r.role != SharedBase
    && !ReferencedByDomain(world.domains, r.path)
    && (forall p :: p in world.volumes && world.volumes[p].backing == Some(r.path) ==> RemovedBefore(pending, i, p))
    && (r.path in world.volumes ==> RemovedBefore(pending, i, r.path) || ExactVolume(world.volumes[r.path], r))
  }

  /** Readiness of storage is a condition on the world as it stands, checkable before anything happens. */
  lemma {:induction false} StorageReadyIff(world: World, pending: seq<ManagedResource>)
    ensures StorageReady(world, pending) <==> forall i :: 0 <= i < |pending| ==> DeletableInTurn(world, pending, i)
    decreases |pending|
  {
    if pending != [] {
      var rest, after := pending[1..], Without(world, pending[0]);
      StorageReadyIff(after, rest);
      assert DeletableInTurn(world, pending, 0) <==> Deletable(world, pending[0]);
      forall i | 0 <= i < |rest|
        ensures DeletableInTurn(world, pending, i + 1) <==> DeletableInTurn(after, rest, i)
      {
        TurnsShift(world, pending, i);
      }
      if forall i :: 0 <= i < |pending| ==> DeletableInTurn(world, pending, i) {
        forall i | 0 <= i < |rest| ensures DeletableInTurn(after, rest, i) {
          assert DeletableInTurn(world, pending, i + 1);
        }
      }
      if StorageReady(world, pending) {
        forall i | 0 <= i < |pending| ensures DeletableInTurn(world, pending, i) {
          if i > 0 {
            assert DeletableInTurn(after, rest, i - 1);
          }
        }
      }
    }
  }

  lemma TurnsShift(world: World, pending: seq<ManagedResource>, i: nat)
    requires i + 1 < |pending|
    ensures DeletableInTurn(world, pending, i + 1) <==> DeletableInTurn(Without(world, pending[0]), pending[1..], i)
  {
    var rest, after := pending[1..], Without(world, pending[0]);
    forall path
      ensures RemovedBefore(pending, i + 1, path) <==> path == pending[0].path || RemovedBefore(rest, i, path)
    {
      if RemovedBefore(pending, i + 1, path) && path != pending[0].path {
        var j :| 0 <= j < i + 1 && pending[j].path == path;
        assert rest[j - 1].path == path;
      }
      if RemovedBefore(rest, i, path) {
        var j :| 0 <= j < i && rest[j].path == path;
        assert pending[j + 1].path == path;
      }
      if path == pending[0].path {
        assert pending[0].path == path;
      }
    }
    assert rest[i] == pending[i + 1];
    forall p ensures p in after.volumes <==> p in world.volumes && p != pending[0].path {
    }
    assert ReferencedByDomain(after.domains, rest[i].path) == ReferencedByDomain(world.domains, rest[i].path);
  }

  /** The storage loop's end: precisely the pending paths are gone, every other volume and all domains stay. */
  lemma {:induction false} RemovesExactlyPending(world: World, pending: seq<ManagedResource>)
    ensures RemoveAll(world, pending).domains == world.domains
    ensures forall p :: p in RemoveAll(world, pending).volumes <==>
                          p in world.volumes && !RemovedBefore(pending, |pending|, p)
    ensures forall p :: p in RemoveAll(world, pending).volumes ==>
                          RemoveAll(world, pending).volumes[p] == world.volumes[p]
    decreases |pending|
  {
    if pending != [] {
      RemovesExactlyPending(Without(world, pending[0]), pending[1..]);
      forall p
        ensures RemovedBefore(pending, |pending|, p)
           <==> p == pending[0].path || RemovedBefore(pending[1..], |pending| - 1, p)
      {
        if p != pending[0].path && RemovedBefore(pending, |pending|, p) {
          var j :| 0 <= j < |pending| && pending[j].path == p;
          assert pending[1..][j - 1].path == p;
        }
        if RemovedBefore(pending[1..], |pending| - 1, p) {
          var j :| 0 <= j < |pending| - 1 && pending[1..][j].path == p;
          assert pending[j + 1].path == p;
        }
        if p == pending[0].path {
          assert pending[0].path == p;
        }
      }
    }
  }
}
