/**
 The durable side of a VM deletion: the generation index, the immutable delete plan and the
 transitions that publish one progress entry at a time.
 */
module DeleteState {
  import opened Results

  datatype ResourceRole = SharedBase | WritableOverlay | NoCloudSeed

  datatype ManagedResource = ManagedResource(
    role: ResourceRole,
    volumeName: string,
    volumeKey: string,
    path: string,
    format: string,
    capacityBytes: nat,
    backingPath: Option<string>)

  datatype GenerationStatus = Preparing | Active | Retained | Failed | Cleaned

  datatype GenerationEntry = GenerationEntry(generationId: string, status: GenerationStatus, manifestFile: string)

  datatype CleanupPhase = SeedDeletePending | OverlayDeletePending | FlatOverlayDeletePending | IncompleteAfterSeed

  datatype CleanupProgress = CleanupProgress(generationId: string, phase: CleanupPhase, deletedRoles: seq<ResourceRole>)

  datatype ResourcePlan = ResourcePlan(generationId: string, resource: ManagedResource)

  datatype DeletePlan = DeletePlan(
    domainName: string,
    domainUuid: string,
    storagePoolName: string,
    storagePoolUuid: string,
    generationId: string,
    resources: seq<ResourcePlan>)

  datatype DomainProgress = UndefinePending | DomainAbsent

  datatype ResourceProgress = DeletePending | ResourceAbsent

  datatype InProgress = InProgress(plan: DeletePlan, domain: DomainProgress, resources: seq<ResourceProgress>)

  datatype DeleteState = Deleting(progress: InProgress) | Deleted(plan: DeletePlan)

  datatype GenerationIndex = GenerationIndex(
    schemaVersion: nat,
    domainName: string,
    domainUuid: string,
    activeGenerationId: string,
    generations: seq<GenerationEntry>,
    cleanupProgress: seq<CleanupProgress>,
    deleteState: Option<DeleteState>)

  datatype StateError = UnsupportedSchema | InvalidObservedState

  const INDEX_SCHEMA_VERSION: nat := 1

  /** A plan that names one exact domain and pairwise different disposable resources of this index. */
  predicate ValidDeletePlan(index: GenerationIndex, plan: DeletePlan) {
    && plan.domainName != "" && plan.domainUuid != ""
    && plan.storagePoolName != "" && plan.storagePoolUuid != ""
    && plan.generationId != "" && plan.resources != []
    && index.domainName == plan.domainName
    && index.domainUuid == plan.domainUuid
    && index.activeGenerationId == plan.generationId
    && (forall i :: 0 <= i < |plan.resources| ==>
          && plan.resources[i].generationId == plan.generationId
          && plan.resources[i].resource.role != SharedBase)
    && (forall i, j :: 0 <= i < j < |plan.resources| ==>
          !SameIdentity(plan.resources[i].resource, plan.resources[j].resource))
  }

  predicate SameIdentity(a: ManagedResource, b: ManagedResource) {
    a.volumeKey == b.volumeKey && a.path == b.path
  }

  predicate ValidCleanupProgress(index: GenerationIndex, progress: CleanupProgress) {
    && (exists i :: 0 <= i < |index.generations|
                 && index.generations[i].generationId == progress.generationId
                 && index.generations[i].status == Retained)
    && progress.deletedRoles == match progress.phase {
         case SeedDeletePending | FlatOverlayDeletePending => []
         case OverlayDeletePending | IncompleteAfterSeed => [NoCloudSeed]
       }
  }

  /** The durable invariants re-checked by every read and every write of the index. */
  predicate ValidIndex(index: GenerationIndex) {
    && index.schemaVersion == INDEX_SCHEMA_VERSION
    && (exists i :: 0 <= i < |index.generations|
                 && index.generations[i].status == Active
                 && index.generations[i].generationId == index.activeGenerationId)
    && (forall i, j :: 0 <= i < j < |index.generations| ==>
          !(index.generations[i].status == Active && index.generations[j].status == Active))
    && (forall i, j :: 0 <= i < j < |index.generations| ==>
          index.generations[i].generationId != index.generations[j].generationId)
    && (forall i, j :: 0 <= i < j < |index.cleanupProgress| ==>
          index.cleanupProgress[i].generationId != index.cleanupProgress[j].generationId)
    && (forall i :: 0 <= i < |index.cleanupProgress| ==> ValidCleanupProgress(index, index.cleanupProgress[i]))
    && ValidDeleteState(index)
  }

  predicate ValidDeleteState(index: GenerationIndex) {
    match index.deleteState
    case None => true
    case Some(Deleting(progress)) =>
      ValidDeletePlan(index, progress.plan) && |progress.resources| == |progress.plan.resources|
    case Some(Deleted(plan)) => ValidDeletePlan(index, plan)
  }

  /** The error for an index that is not valid; its schema is checked first. */
  function IndexError(index: GenerationIndex): StateError {
    if index.schemaVersion != INDEX_SCHEMA_VERSION then UnsupportedSchema else InvalidObservedState
  }

  function Validated(next: GenerationIndex): Result<GenerationIndex, StateError> {
    if ValidIndex(next) then Success(next) else Failure(IndexError(next))
  }

  predicate BlocksDelete(status: GenerationStatus) {
    status == Retained || status == Preparing || status == Failed
  }

  /** Publishes deletion intent before any domain or storage mutation. */
  function BeginInstanceDelete(index: GenerationIndex, plan: DeletePlan): Result<GenerationIndex, StateError> {
    if !ValidIndex(index) then
      Failure(IndexError(index))
    else if !ValidDeletePlan(index, plan) || index.deleteState.Some? then
      Failure(InvalidObservedState)
    else if index.cleanupProgress != []
         || exists i :: 0 <= i < |index.generations| && BlocksDelete(index.generations[i].status) then
      Failure(InvalidObservedState)
    else
      var pending := seq(|plan.resources|, _ => DeletePending);
      Validated(index.(deleteState := Some(Deleting(InProgress(plan, UndefinePending, pending)))))
  }

  function RecordDomainAbsent(index: GenerationIndex, plan: DeletePlan): Result<GenerationIndex, StateError> {
    if !ValidIndex(index) then
      Failure(IndexError(index))
    else match index.deleteState
      case Some(Deleting(progress)) =>
        if progress.plan != plan || progress.domain != UndefinePending then
          Failure(InvalidObservedState)
        else
          Validated(index.(deleteState := Some(Deleting(progress.(domain := DomainAbsent)))))
      case _ => Failure(InvalidObservedState)
  }

  /** The first planned position of a resource, as an index into the plan; its length when there is none. */
  function Position(resources: seq<ResourcePlan>, resource: ManagedResource): nat {
    if resources == [] || resources[0].resource == resource then 0 else 1 + Position(resources[1..], resource)
  }

  function RecordResourceAbsent(index: GenerationIndex, plan: DeletePlan, resource: ManagedResource)
    : Result<GenerationIndex, StateError>
  {
    if !ValidIndex(index) then
      Failure(IndexError(index))
    else match index.deleteState
      case Some(Deleting(progress)) =>
        if progress.plan != plan || progress.domain != DomainAbsent then
          Failure(InvalidObservedState)
        else
          var item := Position(progress.plan.resources, resource);
          if item >= |progress.plan.resources| || progress.resources[item] != DeletePending then
            Failure(InvalidObservedState)
          else
            var resources := progress.resources[item := ResourceAbsent];
            Validated(index.(deleteState := Some(Deleting(progress.(resources := resources)))))
      case _ => Failure(InvalidObservedState)
  }

  /** Publishes the tombstone once the domain and every planned resource are recorded absent. */
  function CompleteInstanceDelete(index: GenerationIndex, plan: DeletePlan): Result<GenerationIndex, StateError> {
    if !ValidIndex(index) then
      Failure(IndexError(index))
    else match index.deleteState
      case Some(Deleting(progress)) =>
        if || progress.plan != plan
           || progress.domain != DomainAbsent
           || exists i :: 0 <= i < |progress.resources| && progress.resources[i] != ResourceAbsent
        then
          Failure(InvalidObservedState)
        else
          Validated(index.(deleteState := Some(Deleted(progress.plan))))
      case _ => Failure(InvalidObservedState)
  }

  // -------------------------------------------------------------------- properties

  /** The work a deletion still owes: its domain, every unrecorded resource and the tombstone. */
  function Remaining(index: GenerationIndex): nat {
    match index.deleteState
    case Some(Deleting(progress)) =>
      1 + (if progress.domain == UndefinePending then 1 else 0) + PendingCount(progress.resources)
    case _ => 0
  }

  function PendingCount(resources: seq<ResourceProgress>): nat {
    if resources == [] then 0
    else (if resources[0] == DeletePending then 1 else 0) + PendingCount(resources[1..])
  }

  lemma {:induction false} PendingCountAfterRecord(resources: seq<ResourceProgress>, item: nat)
    requires item < |resources| && resources[item] == DeletePending
    ensures PendingCount(resources[item := ResourceAbsent]) == PendingCount(resources) - 1
  {
    var recorded := resources[item := ResourceAbsent];
    if item == 0 {
      assert recorded[1..] == resources[1..];
    } else {
      assert recorded[1..] == resources[1..][item - 1 := ResourceAbsent];
      PendingCountAfterRecord(resources[1..], item - 1);
    }
  }

  lemma {:induction false} PositionIsFirst(resources: seq<ResourcePlan>, resource: ManagedResource)
    ensures Position(resources, resource) <= |resources|
    ensures forall i :: 0 <= i < Position(resources, resource) ==> resources[i].resource != resource
    ensures Position(resources, resource) < |resources| ==>
              resources[Position(resources, resource)].resource == resource
  {
    if resources == [] || resources[0].resource == resource {
    } else {
      PositionIsFirst(resources[1..], resource);
      forall i | 0 <= i < Position(resources, resource) ensures resources[i].resource != resource {
        if i > 0 {
          assert resources[i] == resources[1..][i - 1];
        }
      }
    }
  }

  /** In a valid plan a resource has one position, so the checkpoint cannot mark another entry. */
  lemma PlannedPosition(index: GenerationIndex, plan: DeletePlan, position: nat)
    requires ValidDeletePlan(index, plan) && position < |plan.resources|
    ensures Position(plan.resources, plan.resources[position].resource) == position
  {
    var resource := plan.resources[position].resource;
    PositionIsFirst(plan.resources, resource);
    var found := Position(plan.resources, resource);
    if found < position {
      assert SameIdentity(plan.resources[found].resource, plan.resources[position].resource);
    }
  }

  /** What every step of one deletion keeps: all of the index except the delete progress itself. */
  predicate SameOwnership(a: GenerationIndex, b: GenerationIndex) {
    a.(deleteState := None) == b.(deleteState := None)
  }

  function PlanOf(index: GenerationIndex): Option<DeletePlan> {
    match index.deleteState
    case None => None
    case Some(Deleting(progress)) => Some(progress.plan)
    case Some(Deleted(plan)) => Some(plan)
  }

  /** One durable checkpoint: same owner, same immutable plan, and strictly less work left. */
  predicate Checkpoint(before: GenerationIndex, after: GenerationIndex) {
    && ValidIndex(after)
    && SameOwnership(before, after)
    && PlanOf(before).Some? && PlanOf(after) == PlanOf(before)
    && Remaining(after) < Remaining(before)
  }

  /** Whenever its guard holds, recording the domain is a checkpoint that touches nothing else. */
  lemma RecordDomainIsCheckpoint(index: GenerationIndex, plan: DeletePlan)
    requires ValidIndex(index)
    requires index.deleteState.Some? && index.deleteState.value.Deleting?
    requires index.deleteState.value.progress.plan == plan
    requires index.deleteState.value.progress.domain == UndefinePending
    ensures RecordDomainAbsent(index, plan).Success?
    ensures var next := RecordDomainAbsent(index, plan).value;
            && Checkpoint(index, next)
            && next.deleteState == Some(Deleting(index.deleteState.value.progress.(domain := DomainAbsent)))
  {
    var next := index.(deleteState := Some(Deleting(index.deleteState.value.progress.(domain := DomainAbsent))));
    assert forall p :: p in index.cleanupProgress && ValidCleanupProgress(index, p) ==> ValidCleanupProgress(next, p);
    assert ValidIndex(next);
  }

  lemma RecordResourceIsCheckpoint(index: GenerationIndex, plan: DeletePlan, position: nat)
    requires ValidIndex(index)
    requires index.deleteState.Some? && index.deleteState.value.Deleting?
    requires index.deleteState.value.progress.plan == plan
    requires index.deleteState.value.progress.domain == DomainAbsent
    requires position < |plan.resources|
    requires index.deleteState.value.progress.resources[position] == DeletePending
    ensures RecordResourceAbsent(index, plan, plan.resources[position].resource).Success?
    ensures var next := RecordResourceAbsent(index, plan, plan.resources[position].resource).value;
            var progress := index.deleteState.value.progress;
            && Checkpoint(index, next)
            && next.deleteState
               == Some(Deleting(progress.(resources := progress.resources[position := ResourceAbsent])))
  {
    var progress := index.deleteState.value.progress;
    PlannedPosition(index, plan, position);
    PendingCountAfterRecord(progress.resources, position);
    var next := index.(deleteState :=
      Some(Deleting(progress.(resources := progress.resources[position := ResourceAbsent]))));
    assert forall p :: p in index.cleanupProgress && ValidCleanupProgress(index, p) ==> ValidCleanupProgress(next, p);
    assert ValidIndex(next);
  }

  lemma CompleteIsCheckpoint(index: GenerationIndex, plan: DeletePlan)
    requires ValidIndex(index)
    requires index.deleteState.Some? && index.deleteState.value.Deleting?
    requires index.deleteState.value.progress.plan == plan
    requires index.deleteState.value.progress.domain == DomainAbsent
    requires forall i :: 0 <= i < |plan.resources| ==>
               index.deleteState.value.progress.resources[i] == ResourceAbsent
    ensures CompleteInstanceDelete(index, plan).Success?
    ensures var next := CompleteInstanceDelete(index, plan).value;
            Checkpoint(index, next) && next.deleteState == Some(Deleted(plan))
  {
    var next := index.(deleteState := Some(Deleted(plan)));
    assert forall p :: p in index.cleanupProgress && ValidCleanupProgress(index, p) ==> ValidCleanupProgress(next, p);
    assert ValidIndex(next);
  }

  /** Beginning a delete succeeds exactly on a valid index free of recovery, retained and delete state. */
  lemma BeginSucceedsIff(index: GenerationIndex, plan: DeletePlan)
    ensures BeginInstanceDelete(index, plan).Success? <==>
              && ValidIndex(index) && ValidDeletePlan(index, plan) && index.deleteState.None?
              && index.cleanupProgress == []
              && forall i :: 0 <= i < |index.generations| ==> !BlocksDelete(index.generations[i].status)
    ensures BeginInstanceDelete(index, plan).Success? ==>
              var next := BeginInstanceDelete(index, plan).value;
              && ValidIndex(next) && SameOwnership(index, next)
              && next.deleteState.Some? && next.deleteState.value.Deleting?
              && next.deleteState.value.progress.plan == plan
              && next.deleteState.value.progress.domain == UndefinePending
              && Remaining(next) == 2 + |plan.resources|
  {
    AllPending(seq(|plan.resources|, _ => DeletePending));
  }

  lemma {:induction false} AllPending(resources: seq<ResourceProgress>)
    requires forall i :: 0 <= i < |resources| ==> resources[i] == DeletePending
    ensures PendingCount(resources) == |resources|
  {
    if resources != [] {
      AllPending(resources[1..]);
    }
  }

  // -------------------------------------------------------------------- when the transitions are made

  /** Nothing of the plan is missing, it is of this domain and generation, and its volumes are disposable and differ. */
  lemma ValidPlanIff(index: GenerationIndex, plan: DeletePlan)
    ensures ValidDeletePlan(index, plan)
       <==> (&& "" !in [plan.domainName, plan.domainUuid, plan.storagePoolName, plan.storagePoolUuid, plan.generationId]
             && (index.domainName, index.domainUuid, index.activeGenerationId)
                == (plan.domainName, plan.domainUuid, plan.generationId)
             && |plan.resources| > 0
             && (forall r :: r in plan.resources ==>
                   r.generationId == plan.generationId && r.resource.role in {WritableOverlay, NoCloudSeed})
             && forall i, j :: 0 <= i < j < |plan.resources| ==>
                  (plan.resources[i].resource.volumeKey, plan.resources[i].resource.path)
                  != (plan.resources[j].resource.volumeKey, plan.resources[j].resource.path))
  {
    if forall i :: 0 <= i < |plan.resources| ==> plan.resources[i].resource.role != SharedBase {
      assert forall r :: r in plan.resources ==> r.resource.role != SharedBase;
    }
    assert forall i :: 0 <= i < |plan.resources| ==> plan.resources[i] in plan.resources;
  }

  /** The entry is the one active generation of the index. */
  predicate OnlyActive(index: GenerationIndex, i: int) {
    && 0 <= i < |index.generations|
    && index.generations[i].status == Active && index.generations[i].generationId == index.activeGenerationId
    && forall j :: 0 <= j < |index.generations| && j != i ==> index.generations[j].status != Active
  }

  /** What an unfinished cleanup must record: a retained generation, and the seed as deleted once that is its phase. */
  predicate CleanupFits(index: GenerationIndex, progress: CleanupProgress) {
    && (exists i :: 0 <= i < |index.generations| && index.generations[i].generationId == progress.generationId
                 && index.generations[i].status == Retained)
    && (progress.phase in {SeedDeletePending, FlatOverlayDeletePending} ==> |progress.deletedRoles| == 0)
    && (progress.phase in {OverlayDeletePending, IncompleteAfterSeed} ==>
          |progress.deletedRoles| == 1 && progress.deletedRoles[0] == NoCloudSeed)
  }

  /** What makes an index valid. */
  lemma ValidIndexIff(index: GenerationIndex)
    ensures ValidIndex(index)
       <==> (&& index.schemaVersion == 1 && (exists i :: OnlyActive(index, i))
             && (forall i, j :: 0 <= i < j < |index.generations| ==>
                   index.generations[i].generationId != index.generations[j].generationId)
             && (forall i, j :: 0 <= i < j < |index.cleanupProgress| ==>
                   index.cleanupProgress[i].generationId != index.cleanupProgress[j].generationId)
             && (forall i :: 0 <= i < |index.cleanupProgress| ==> CleanupFits(index, index.cleanupProgress[i]))
             && match index.deleteState
                case None => true
                case Some(Deleted(plan)) => ValidDeletePlan(index, plan)
                case Some(Deleting(progress)) =>
                  ValidDeletePlan(index, progress.plan) && |progress.resources| == |progress.plan.resources|)
  {
    hide ValidDeletePlan;
    forall p: CleanupProgress ensures CleanupFits(index, p) <==> ValidCleanupProgress(index, p) {
    }
    hide CleanupFits, ValidCleanupProgress;
    if ValidIndex(index) {
      var i :| 0 <= i < |index.generations| && index.generations[i].status == Active
               && index.generations[i].generationId == index.activeGenerationId;
      assert OnlyActive(index, i);
    }
  }

  /** A deletion begins exactly with a valid plan on a valid index with nothing else going on. */
  lemma BeginIff(index: GenerationIndex, plan: DeletePlan)
    ensures BeginInstanceDelete(index, plan).Success?
       <==> (&& ValidIndex(index) && ValidDeletePlan(index, plan) && index.deleteState == None
             && |index.cleanupProgress| == 0
             && forall entry :: entry in index.generations ==> entry.status in {Active, Cleaned})
    ensures BeginInstanceDelete(index, plan) == Failure(UnsupportedSchema) <==> index.schemaVersion != 1
  {
    hide ValidDeletePlan, ValidCleanupProgress;
    BeginSucceedsIff(index, plan);
    assert forall i :: 0 <= i < |index.generations| ==> index.generations[i] in index.generations;
  }

  /** The index records this plan as being carried out, with its domain so far. */
  predicate Pursues(index: GenerationIndex, plan: DeletePlan, domain: DomainProgress) {
    && index.deleteState.Some? && index.deleteState.value.Deleting?
    && index.deleteState.value.progress.plan == plan && index.deleteState.value.progress.domain == domain
  }

  /** Each checkpoint is published exactly from a valid index that pursues this plan up to just before it. */
  lemma RecordedIff(index: GenerationIndex, plan: DeletePlan, resource: ManagedResource)
    ensures RecordDomainAbsent(index, plan).Success? <==> ValidIndex(index) && Pursues(index, plan, UndefinePending)
    ensures RecordResourceAbsent(index, plan, resource).Success?
       <==> (&& ValidIndex(index) && Pursues(index, plan, DomainAbsent)
             && exists i :: && 0 <= i < |plan.resources| && plan.resources[i].resource == resource
                            && i < |index.deleteState.value.progress.resources|
                            && index.deleteState.value.progress.resources[i] == DeletePending)
    ensures CompleteInstanceDelete(index, plan).Success?
       <==> (&& ValidIndex(index) && Pursues(index, plan, DomainAbsent)
             && forall r :: r in index.deleteState.value.progress.resources ==> r == ResourceAbsent)
  {
    hide ValidCleanupProgress;
    if ValidIndex(index) && Pursues(index, plan, UndefinePending) {
      RecordDomainIsCheckpoint(index, plan);
    }
    if ValidIndex(index) && Pursues(index, plan, DomainAbsent) {
      var progress := index.deleteState.value.progress;
      assert |progress.resources| == |plan.resources| && ValidDeletePlan(index, plan);
      PositionIsFirst(plan.resources, resource);
      if i :| 0 <= i < |plan.resources| && plan.resources[i].resource == resource
              && progress.resources[i] == DeletePending {
        RecordResourceIsCheckpoint(index, plan, i);
      }
      assert forall i :: 0 <= i < |progress.resources| ==> progress.resources[i] in progress.resources;
      if forall r :: r in progress.resources ==> r == ResourceAbsent {
        CompleteIsCheckpoint(index, plan);
      }
    }
    hide ValidIndex;
  }

  function RefusalOf(index: GenerationIndex): StateError {
    if index.schemaVersion == 1 then InvalidObservedState else UnsupportedSchema
  }

  /** Whatever is refused, an unknown schema is named as such and everything else as an invalid state. */
  lemma RefusedAs(index: GenerationIndex, plan: DeletePlan, resource: ManagedResource)
    ensures RecordDomainAbsent(index, plan).Failure? ==> RecordDomainAbsent(index, plan).error == RefusalOf(index)
    ensures RecordResourceAbsent(index, plan, resource).Failure? ==>
              RecordResourceAbsent(index, plan, resource).error == RefusalOf(index)
    ensures CompleteInstanceDelete(index, plan).Failure? ==>
              CompleteInstanceDelete(index, plan).error == RefusalOf(index)
  {
    hide ValidDeletePlan, ValidCleanupProgress;
  }
}
