/** What deletion has seen before it reports or records an outcome, call by call and under any interference. */
module DeleteObservations {
  import opened Results
  import opened DeleteState
  import opened DeleteHost
  import opened DeleteExecution

  // ---------------------------------------------------------------- a failed volume deletion

  /** The next call answers and finds a volume at the path. */
  predicate StillThere(h: Host, o: Oracle, path: string) {
    Look(h, o).Answered? && path in Enter(h, o).world.volumes
  }

  /** The next call answers and finds no volume at the path. */
  predicate SeenGone(h: Host, o: Oracle, path: string) {
    Look(h, o).Answered? && path !in Enter(h, o).world.volumes
  }

  /**
   A deletion call that fails in the backend is refused, instead of left to a later resume, exactly
   when one of the two absence observations after it answers and still finds a volume at the path.
   */
  lemma FailedDeleteRefusedIff(h: Host, o: Oracle, resource: ManagedResource)
    requires resource.role != SharedBase
    requires DeleteManagedVolumeExact(h, o, resource).1 == Returned(Failure(VolumeBackend))
    ensures var after := DeleteManagedVolumeExact(h, o, resource).0;
            && (RemoveResource(h, o, resource).1 == Refused
                <==> (|| StillThere(after, o, resource.path)
                      || (SeenGone(after, o, resource.path) && StillThere(Enter(after, o), o, resource.path))))
            && (RemoveResource(h, o, resource).1.Done?
                <==> SeenGone(after, o, resource.path) && SeenGone(Enter(after, o), o, resource.path))
  {
  }

  /** One volume, exactly as planned, and nothing else. */
  function LoneVolume(r: ManagedResource): World {
    World([], map[r.path := Volume(r.volumeName, r.volumeKey, Some(r.format), r.capacityBytes, r.backingPath)])
  }

  /** Nobody interferes, and only this call goes wrong. */
  function OnlyFault(turn: nat, fault: Fault): Oracle {
    (i: nat) => Turn(None, if i == turn then fault else Works)
  }

  /**
   A deletion call that fails without effect is refused although nothing is in the way: the same
   removal, attempted once more without the fault, is done.
   */
  lemma FailureWithoutEffectIsRefused(r: ManagedResource, durable: Option<GenerationIndex>)
    requires r.role != SharedBase && r.backingPath != Some(r.path)
    ensures var h, o := Host(LoneVolume(r), durable, 0, []), OnlyFault(3, FailsBefore);
            && DeleteManagedVolumeExact(h, o, r).1 == Returned(Failure(VolumeBackend))
            && RemoveResource(h, o, r).1 == Refused && RemoveResource(h, o, r).0.world == h.world
            && RemoveResource(RemoveResource(h, o, r).0, o, r).1 == Done(())
  {
    var h, o := Host(LoneVolume(r), durable, 0, []), OnlyFault(3, FailsBefore);
    assert !BacksVolume(h.world.volumes, r.path);
    var first := RemoveResource(h, o, r).0;
    assert first.turn == 5 && first.world == h.world;
    var second := DeleteManagedVolumeExact(first, o, r);
    assert second.1 == Returned(Success(())) && second.0.world.volumes == map[];
  }

  /** A volume that is already gone, and a domain that still refers to its path: the removal is refused. */
  lemma GoneButReferencedIsRefused(r: ManagedResource, d: Domain, durable: Option<GenerationIndex>)
    requires r.role != SharedBase && r.path in d.sources
    ensures RemoveResource(Host(World([d], map[]), durable, 0, []), OnlyFault(0, Works), r).1 == Refused
  {
    assert ReferencedByDomain([d], r.path) by { assert r.path in [d][0].sources; }
  }

  // ---------------------------------------------------------------- observed before recorded

  /** The point of a removal at which its last absence observation is made. */
  function LastObservation(h: Host, o: Oracle, resource: ManagedResource): Host {
    var (h1, deleted) := DeleteManagedVolumeExact(h, o, resource);
    if deleted.Returned? && deleted.value.Success? then h1 else Enter(h1, o)
  }

  lemma RemovalKeepsIndex(h: Host, o: Oracle, resource: ManagedResource)
    ensures RemoveResource(h, o, resource).0.durable == h.durable
    ensures RemoveResource(h, o, resource).1.Done? ==>
              SeenGone(LastObservation(h, o, resource), o, resource.path)
              && RemoveResource(h, o, resource).0 == Enter(LastObservation(h, o, resource), o)
  {
    DeletionKeepsIndex(h, o, resource);
    hide DeleteManagedVolumeExact;
  }

  lemma DeletionKeepsIndex(h: Host, o: Oracle, resource: ManagedResource)
    ensures DeleteManagedVolumeExact(h, o, resource).0.durable == h.durable
  {
  }

  /**
   Whatever others do in between: a volume is recorded absent only if the last call before the record
   answered that no volume is at its path.
   */
  lemma VolumeRecordedAfterSeen(h: Host, o: Oracle, current: GenerationIndex, plan: DeletePlan,
                                resource: ManagedResource)
    requires RemoveAndRecord(h, o, current, plan, resource).0.durable != h.durable
    ensures SeenGone(LastObservation(h, o, resource), o, resource.path)
    ensures RemoveResource(h, o, resource).0 == Enter(LastObservation(h, o, resource), o)
    ensures var seen := Enter(LastObservation(h, o, resource), o);
            RemoveAndRecord(h, o, current, plan, resource)
            == Publish(seen, o, current, RecordResourceAbsent(current, plan, resource))
  {
    hide Publish, RecordResourceAbsent, RemoveResource, LastObservation, SeenGone;
    RemovalKeepsIndex(h, o, resource);
  }

  /** The next call lists the domains and finds neither the name nor the UUID. */
  predicate DomainSeenGone(h: Host, o: Oracle, id: Identity) {
    Look(h, o).Answered? && ClassifyObservation(id, Enter(h, o).world.domains) == Absent
  }

  /** The point after an undefine at which the domains are listed again. */
  function AfterUndefineCall(h: Host, o: Oracle, id: Identity): Host {
    var h1 := Enter(ObserveDomain(h, o, id).0, o);
    Act(h1, o, DomainUndefined(id.uuid, h1.world, Enter(h1, o).world, Enter(h1, o).durable))
  }

  lemma UndefineSeesGone(h: Host, o: Oracle, plan: DeletePlan)
    requires UndefineDomain(h, o, plan).1.Done?
    ensures var last := AfterUndefineCall(h, o, IdentityOf(plan));
            DomainSeenGone(last, o, IdentityOf(plan)) && UndefineDomain(h, o, plan).0 == Enter(last, o)
  {
    hide ClassifyObservation;
  }

  lemma UndefineKeepsIndex(h: Host, o: Oracle, plan: DeletePlan)
    ensures UndefineDomain(h, o, plan).0.durable == h.durable
  {
    hide ClassifyObservation, AuthorizeUndefine;
  }

  lemma StopKeepsIndex(h: Host, o: Oracle, plan: DeletePlan, state: VmState, a: Attempt)
    ensures StopIfRunning(h, o, plan, state, a).0.durable == h.durable
  {
    hide ClassifyObservation;
  }

  /** The point of a domain step at which the domains are listed last: at its start, or after the undefine. */
  predicate LastListing(h: Host, o: Oracle, plan: DeletePlan, a: Attempt, last: Host) {
    match ObserveDomain(h, o, IdentityOf(plan)).1
    case Returned(Success(ExactPresent(_, state, _))) =>
      var (ready, stopped) := StopIfRunning(ObserveDomain(h, o, IdentityOf(plan)).0, o, plan, state, a);
      stopped.Done? && last == AfterUndefineCall(ready, o, IdentityOf(plan))
    case _ => last == h
  }

  /**
   The domain step is recorded only if the last call before the record listed the domains and found
   neither the planned name nor the planned UUID: the first listing, or, where that found the domain in
   some state and it has been stopped if need be, the one after the undefine.
   */
  lemma DomainRecordedAfterSeen(h: Host, o: Oracle, current: GenerationIndex, plan: DeletePlan, a: Attempt)
    requires DomainPhase(h, o, current, plan, a).0.durable != h.durable
    ensures exists last :: LastListing(h, o, plan, a, last) && DomainSeenGone(last, o, IdentityOf(plan))
              && DomainPhase(h, o, current, plan, a)
                 == Publish(Enter(last, o), o, current, RecordDomainAbsent(current, plan))
  {
    hide Publish, RecordDomainAbsent, StopIfRunning, UndefineDomain, AfterUndefineCall, ClassifyObservation;
    var (h1, observed) := ObserveDomain(h, o, IdentityOf(plan));
    match observed
    case Returned(Success(ExactPresent(_, state, _))) =>
      StopKeepsIndex(h1, o, plan, state, a);
      var (h2, stopped) := StopIfRunning(h1, o, plan, state, a);
      if stopped.Done? {
        UndefineKeepsIndex(h2, o, plan);
        if UndefineDomain(h2, o, plan).1.Done? {
          UndefineSeesGone(h2, o, plan);
          assert LastListing(h, o, plan, a, AfterUndefineCall(h2, o, IdentityOf(plan)));
        }
      }
    case Returned(Success(Absent)) =>
      assert LastListing(h, o, plan, a, h);
    case _ =>
  }
}
