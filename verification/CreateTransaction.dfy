/**
 The creation of a managed guest: one transaction with a single commit point, the durable publication
 of the generation's manifest. Before it a failure rolls storage back; after it nothing is removed.
 Every call may fail without having taken effect, and a writing call also after it has.
 */
module CreateTransaction {
  import opened Results
  import opened WriteFaults
  import opened SharedBase

  type Pool = map<string, Volume>

  datatype Volume = Volume(key: string, path: string, format: string, capacityBytes: nat, backingPath: Option<string>)

  datatype Manifest = Manifest(generationId: string, resources: seq<Managed>)

  /** What creation reads and changes: one storage pool, the durable state, and whether the domain exists. */
  datatype Host = Host(pool: Pool, manifest: Option<Manifest>, index: Option<string>, domainDefined: bool)

  /** A verified image, the disk of an existing guest, or a promoted base with the resource recorded for it. */
  datatype Source = Image | Clone | Promoted(base: Managed)

  datatype Plan = Plan(
    mutation: bool, autoBoot: bool, hasObservations: bool, hasSeed: bool, manualGuest: bool,
    source: Source, generationId: string, base: BaseImage, overlayName: string, overlayPath: string, diskBytes: nat)

  datatype Call =
    | Revalidate | PrepareStorage | InspectPreparing | PersistPreparing
    | DefineDomain | InspectDefined | Activate | Rollback

  const STEPS: seq<Call> :=
    [Revalidate, PrepareStorage, InspectPreparing, PersistPreparing, DefineDomain, InspectDefined, Activate]

  /** Failures while one volume is made: its creation, its filling, what undoes it, and the inspections around it. */
  datatype MakingFaults = MakingFaults(before: bool, create: Fault, fill: bool, undo: Fault, after: bool)

  datatype Faults = Faults(
    revalidate: bool, reuse: bool, making: MakingFaults, overlay: MakingFaults, inspectPreparing: bool,
    persist: Fault, define: Fault, inspectDefined: bool, activate: Fault, deleteOverlay: Fault, deleteBase: Fault)

  datatype State = State(host: Host, baseCreated: bool, overlayCreated: bool, calls: seq<Call>)

  datatype CreateError =
    | InvalidPlan
    | BeforeOwnership(failed: Call, rollbackFailed: bool)
    | RecoveryRequired(at: Call)

  // ---------------------------------------------------------------- storage calls

  /** Creating a volume of a name that exists is refused. */
  function CreateVolume(pool: Pool, name: string, volume: Volume, fault: Fault): (Pool, bool) {
    if name in pool || fault == FailsBefore then (pool, false)
    else (pool[name := volume], fault == Works)
  }

  function DeleteVolume(pool: Pool, name: string, fault: Fault): (Pool, bool) {
    if name !in pool || fault == FailsBefore then (pool, false)
    else (pool - {name}, fault == Works)
  }

  function BaseVolume(plan: Plan): Volume {
    Volume(plan.base.path, plan.base.path, plan.base.format, plan.base.capacityBytes, None)
  }

  function OverlayVolume(plan: Plan): Volume {
    Volume(plan.overlayPath, plan.overlayPath, "qcow2", plan.diskBytes,
           if plan.source == Clone then None else Some(plan.base.path))
  }

  /** Creation, upload, then inspection; only a failed upload is undone, and how that ends is ignored. */
  function ImportBase(pool: Pool, plan: Plan, faults: MakingFaults): (Pool, bool) {
    if faults.before then (pool, false)
    else
      var created := CreateVolume(pool, plan.base.name, BaseVolume(plan), faults.create);
      if !created.1 then created
      else if faults.fill then (DeleteVolume(created.0, plan.base.name, faults.undo).0, false)
      else (created.0, !faults.after)
  }

  /** Creation from the source, inspection, then a check of the shape, whose refusal is undone. */
  function CloneVolume(pool: Pool, plan: Plan, faults: MakingFaults): (Pool, bool) {
    if faults.before then (pool, false)
    else
      var created := CreateVolume(pool, plan.overlayName, OverlayVolume(plan), faults.create);
      if !created.1 then created
      else if faults.after then (created.0, false)
      else if faults.fill then (DeleteVolume(created.0, plan.overlayName, faults.undo).0, false)
      else (created.0, true)
  }

  function CreateOverlay(pool: Pool, plan: Plan, faults: MakingFaults): (Pool, bool) {
    if faults.before then (pool, false)
    else
      var created := CreateVolume(pool, plan.overlayName, OverlayVolume(plan), faults.create);
      (created.0, created.1 && !faults.after)
  }

  // ---------------------------------------------------------------- the backend's calls

  function FoundVolume(pool: Pool, name: string): Option<Found> {
    if name in pool then
      var v := pool[name]; Some(Found(name, v.path, v.format, v.capacityBytes, v.backingPath))
    else None
  }

  /**
   The durable evidence for an existing base: recorded with a promoted one, else folded from the other
   instances' state.
   */
  function Evidence(plan: Plan, consumers: seq<Entry>, found: Found): Option<Managed> {
    match plan.source
    case Promoted(base) => Some(base)
    case _ =>
      match SharedBaseProof(consumers, plan.base.name, found)
      case Failure(_) => None
      case Success(proof) => Some(proof.resource)
  }

  /** An existing base needs evidence; a promoted one must exist. */
  function DispositionOf(pool: Pool, plan: Plan, consumers: seq<Entry>): Option<Disposition> {
    var found := FoundVolume(pool, plan.base.name);
    if found.None? then (if plan.source.Promoted? then None else Some(Prepare))
    else
      var classified := Classify(plan.base, found, Evidence(plan, consumers, found.value));
      if classified.Success? then Some(classified.value) else None
  }

  function RevalidateTargets(host: Host, plan: Plan, consumers: seq<Entry>, fails: bool): Option<Disposition> {
    if fails || host.manifest.Some? || host.index.Some? || host.domainDefined || plan.overlayName in host.pool then None
    else if plan.source == Clone then Some(ReuseProven)
    else DispositionOf(host.pool, plan, consumers)
  }

  function AddOverlay(s: State, plan: Plan, faults: MakingFaults): (State, bool) {
    var made := CreateOverlay(s.host.pool, plan, faults);
    (s.(host := s.host.(pool := made.0), overlayCreated := made.1), made.1)
  }

  /** A flag is raised only after the call that made the volume has reported success. */
  function Prepared(s: State, plan: Plan, consumers: seq<Entry>, disposition: Disposition, faults: Faults)
    : (State, bool)
  {
    if plan.source == Clone then
      var made := CloneVolume(s.host.pool, plan, faults.making);
      (s.(host := s.host.(pool := made.0), overlayCreated := made.1), made.1)
    else if disposition == Prepare then
      var made := ImportBase(s.host.pool, plan, faults.making);
      var imported := s.(host := s.host.(pool := made.0), baseCreated := made.1);
      if made.1 then AddOverlay(imported, plan, faults.overlay) else (imported, false)
    else if faults.reuse || DispositionOf(s.host.pool, plan, consumers) != Some(ReuseProven) then (s, false)
    else AddOverlay(s, plan, faults.overlay)
  }

  function ManagedOf(role: Role, name: string, v: Volume): Managed {
    Managed(role, name, v.key, v.path, v.format, v.capacityBytes, v.backingPath)
  }

  /** The generation's storage as observed: a flat overlay alone, or a backed one with its base. */
  function Observed(pool: Pool, plan: Plan): Option<seq<Managed>> {
    if plan.overlayName !in pool then None
    else
      var overlay := ManagedOf(OverlayRole, plan.overlayName, pool[plan.overlayName]);
      if overlay.backingPath.None? then Some([overlay])
      else if plan.base.name in pool && pool[plan.base.name].path == overlay.backingPath.value then
        Some([ManagedOf(BaseRole, plan.base.name, pool[plan.base.name]), overlay])
      else None
  }

  predicate Backed(resources: seq<Managed>) {
    (exists r :: r in resources && r.role == BaseRole) && (exists r :: r in resources && r.role == OverlayRole)
  }

  predicate Flat(resources: seq<Managed>) {
    |resources| == 1 && resources[0].role == OverlayRole
  }

  predicate SameGeneration(manifest: Manifest, observed: seq<Managed>) {
    && (|manifest.resources| == |observed|)
    && ((Flat(manifest.resources) && Flat(observed)) || (2 <= |manifest.resources| <= 3 && Backed(manifest.resources)))
    && forall i :: 0 <= i < |manifest.resources| ==> manifest.resources[i] in observed
  }

  /** Both deletions are attempted, each only of what this run reported as made. */
  function RolledBack(s: State, plan: Plan, faults: Faults): (State, bool) {
    var first :=
      if s.overlayCreated then DeleteVolume(s.host.pool, plan.overlayName, faults.deleteOverlay)
      else (s.host.pool, true);
    var second := if s.baseCreated then DeleteVolume(first.0, plan.base.name, faults.deleteBase) else (first.0, true);
    (s.(host := s.host.(pool := second.0), calls := s.calls + [Rollback]), first.1 && second.1)
  }

  // ---------------------------------------------------------------- the transaction

  function Logged(s: State, call: Call): State {
    s.(calls := s.calls + [call])
  }

  function RollbackAfter(s: State, failed: Call, plan: Plan, faults: Faults): (State, Result<(), CreateError>) {
    var undone := RolledBack(s, plan, faults);
    (undone.0, Failure(BeforeOwnership(failed, !undone.1)))
  }

  predicate Supported(plan: Plan) {
    !plan.mutation && !plan.autoBoot && !plan.hasObservations && !plan.hasSeed && plan.manualGuest
  }

  function Published(host: Host, manifest: Manifest, fault: Fault): (Host, bool) {
    if host.index.Some? || host.manifest.Some? || fault == FailsBefore then (host, false)
    else (host.(manifest := Some(manifest)), fault == Works)
  }

  function Activated(host: Host, manifest: Manifest, observed: seq<Managed>, fault: Fault): (Host, bool) {
    if || host.index.Some? || host.manifest != Some(manifest) || !SameGeneration(manifest, observed)
       || fault == FailsBefore then
      (host, false)
    else (host.(index := Some(manifest.generationId)), fault == Works)
  }

  /** From the commit point on: a failure leaves everything for explicit recovery. */
  function Commit(s: State, manifest: Manifest, plan: Plan, faults: Faults): (State, Result<(), CreateError>) {
    var defining := Logged(s, DefineDomain);
    var defined :=
      if faults.define == FailsBefore then defining else defining.(host := defining.host.(domainDefined := true));
    if faults.define != Works then (defined, Failure(RecoveryRequired(DefineDomain)))
    else
      var inspecting := Logged(defined, InspectDefined);
      var observed := Observed(inspecting.host.pool, plan);
      if faults.inspectDefined || observed.None? then (inspecting, Failure(RecoveryRequired(InspectDefined)))
      else
        var activating := Logged(inspecting, Activate);
        var active := Activated(activating.host, manifest, observed.value, faults.activate);
        (activating.(host := active.0), if active.1 then Success(()) else Failure(RecoveryRequired(Activate)))
  }

  /** From prepared storage to the commit point. */
  function Own(s: State, plan: Plan, faults: Faults): (State, Result<(), CreateError>) {
    var inspecting := Logged(s, InspectPreparing);
    var observed := Observed(inspecting.host.pool, plan);
    if faults.inspectPreparing || observed.None? then RollbackAfter(inspecting, InspectPreparing, plan, faults)
    else
      var persisting := Logged(inspecting, PersistPreparing);
      var manifest := Manifest(plan.generationId, observed.value);
      var published := Published(persisting.host, manifest, faults.persist);
      var owned := persisting.(host := published.0);
      if published.1 then Commit(owned, manifest, plan, faults)
      else RollbackAfter(owned, PersistPreparing, plan, faults)
  }

  function Execute(host: Host, plan: Plan, consumers: seq<Entry>, faults: Faults): (State, Result<(), CreateError>) {
    var start := State(host, false, false, []);
    if !Supported(plan) then (start, Failure(InvalidPlan))
    else
      var revalidating := Logged(start, Revalidate);
      match RevalidateTargets(host, plan, consumers, faults.revalidate)
      case None => (revalidating, Failure(BeforeOwnership(Revalidate, false)))
      case Some(disposition) =>
        var prepared := Prepared(Logged(revalidating, PrepareStorage), plan, consumers, disposition, faults);
        if prepared.1 then Own(prepared.0, plan, faults) else RollbackAfter(prepared.0, PrepareStorage, plan, faults)
  }

  // ---------------------------------------------------------------- the calls made

  /** The step at which a run ends. */
  function EndsAt(result: Result<(), CreateError>): Call {
    match result
    case Success(_) => Activate
    case Failure(InvalidPlan) => Revalidate
    case Failure(BeforeOwnership(failed, _)) => failed
    case Failure(RecoveryRequired(at)) => at
  }

  function Position(call: Call): nat {
    match call
    case Revalidate => 0
    case PrepareStorage => 1
    case InspectPreparing => 2
    case PersistPreparing => 3
    case DefineDomain => 4
    case InspectDefined => 5
    case Activate => 6
    case Rollback => 7
  }

  function CallsUpTo(result: Result<(), CreateError>): seq<Call> {
    var last := Position(EndsAt(result));
    if result == Failure(InvalidPlan) then []
    else if 1 <= last <= 3 then STEPS[..last + 1] + [Rollback]
    else STEPS[..if last < 7 then last + 1 else 7]
  }

  /**
   The calls are the fixed steps up to the one that failed, followed by exactly one rollback when that
   one lies between preparing storage and publishing, and by none otherwise: never after publication
   has reported success.
   */
  lemma CallsAreOrdered(host: Host, plan: Plan, consumers: seq<Entry>, faults: Faults)
    ensures Execute(host, plan, consumers, faults).0.calls == CallsUpTo(Execute(host, plan, consumers, faults).1)
    ensures Execute(host, plan, consumers, faults).1.Failure? ==>
              match Execute(host, plan, consumers, faults).1.error
              case InvalidPlan => !Supported(plan)
              case BeforeOwnership(failed, _) => Position(failed) <= 3
              case RecoveryRequired(at) => 4 <= Position(at) <= 6
  {
    hide DispositionOf, SameGeneration, Observed, ImportBase, CloneVolume, CreateOverlay, DeleteVolume, Prepared, Own,
         RevalidateTargets, Supported;
    var start := State(host, false, false, []);
    var disposition := RevalidateTargets(host, plan, consumers, faults.revalidate);
    if Supported(plan) && disposition.Some? {
      var preparing := Logged(Logged(start, Revalidate), PrepareStorage);
      PreparedCalls(preparing, plan, consumers, disposition.value, faults);
      OwnCalls(Prepared(preparing, plan, consumers, disposition.value, faults).0, plan, faults);
    }
  }

  lemma PreparedCalls(s: State, plan: Plan, consumers: seq<Entry>, disposition: Disposition, faults: Faults)
    ensures Prepared(s, plan, consumers, disposition, faults).0.calls == s.calls
    ensures Prepared(s, plan, consumers, disposition, faults).0.host
         == s.host.(pool := Prepared(s, plan, consumers, disposition, faults).0.host.pool)
  {
  }

  lemma OwnCalls(s: State, plan: Plan, faults: Faults)
    requires s.calls == STEPS[..2]
    ensures var run := Own(s, plan, faults);
            match run.1
            case Success(_) => run.0.calls == STEPS
            case Failure(BeforeOwnership(failed, _)) =>
              (failed == InspectPreparing && run.0.calls == STEPS[..3] + [Rollback])
              || (failed == PersistPreparing && run.0.calls == STEPS[..4] + [Rollback])
            case Failure(RecoveryRequired(at)) => 4 <= Position(at) <= 6 && run.0.calls == STEPS[..Position(at) + 1]
            case Failure(InvalidPlan) => false
  {
    hide Observed, SameGeneration, DeleteVolume;
    assert STEPS[..3] == STEPS[..2] + [InspectPreparing];
    assert STEPS[..4] == STEPS[..3] + [PersistPreparing];
    assert STEPS[..5] == STEPS[..4] + [DefineDomain];
    assert STEPS[..6] == STEPS[..5] + [InspectDefined];
    assert STEPS == STEPS[..7] == STEPS[..6] + [Activate];
  }

  // ---------------------------------------------------------------- what a run leaves of the pool

  /** An import that fails with its volume left behind: reported or inspected badly, or not undone. */
  predicate ImportLeaves(f: MakingFaults) {
    !f.before && (f.create == FailsAfter || (f.create == Works && if f.fill then f.undo == FailsBefore else f.after))
  }

  predicate CloneLeaves(f: MakingFaults) {
    !f.before && (f.create == FailsAfter || (f.create == Works && (f.after || (f.fill && f.undo == FailsBefore))))
  }

  predicate OverlayLeaves(f: MakingFaults) {
    !f.before && (f.create == FailsAfter || (f.create == Works && f.after))
  }

  predicate ImportWorks(f: MakingFaults) {
    !f.before && f.create == Works && !f.fill && !f.after
  }

  /** The failing calls that leave a volume for which no flag is raised. */
  predicate Leaves(plan: Plan, disposition: Disposition, faults: Faults) {
    if plan.source == Clone then CloneLeaves(faults.making)
    else if disposition == Prepare then
      || ImportLeaves(faults.making)
      || (ImportWorks(faults.making) && plan.overlayName != plan.base.name && OverlayLeaves(faults.overlay))
    else !faults.reuse && OverlayLeaves(faults.overlay)
  }

  /** The pool with what the plan makes. */
  function Extended(pool: Pool, plan: Plan, disposition: Disposition): Pool {
    (if plan.source != Clone && disposition == Prepare then pool[plan.base.name := BaseVolume(plan)] else pool)
      [plan.overlayName := OverlayVolume(plan)]
  }

  predicate StartsClean(host: Host, plan: Plan, consumers: seq<Entry>, disposition: Disposition) {
    && host.manifest.None? && host.index.None? && !host.domainDefined && plan.overlayName !in host.pool
    && (plan.source != Clone ==> DispositionOf(host.pool, plan, consumers) == Some(disposition))
  }

  /** A base is prepared only where there is none; a reused one is there, with the planned path. */
  lemma DispositionMeans(pool: Pool, plan: Plan, consumers: seq<Entry>)
    ensures DispositionOf(pool, plan, consumers) == Some(Prepare) <==> plan.base.name !in pool && !plan.source.Promoted?
    ensures DispositionOf(pool, plan, consumers) == Some(ReuseProven) ==>
              plan.base.name in pool && pool[plan.base.name].path == plan.base.path
  {
  }

  /** Rolling back after a failed preparation leaves the pool as it was, but for stray volumes. */
  lemma UndonePreparation(host: Host, plan: Plan, consumers: seq<Entry>, disposition: Disposition, faults: Faults,
                          s: State)
    requires StartsClean(host, plan, consumers, disposition)
    requires s.host == host && !s.baseCreated && !s.overlayCreated
    ensures var prepared := Prepared(s, plan, consumers, disposition, faults);
            var undone := RolledBack(prepared.0, plan, faults);
            && (prepared.1 ==>
                  && !Leaves(plan, disposition, faults)
                  && prepared.0.host.pool == Extended(host.pool, plan, disposition)
                  && prepared.0.overlayCreated
                  && (prepared.0.baseCreated <==> plan.source != Clone && disposition == Prepare)
                  && (prepared.0.baseCreated ==> plan.base.name !in host.pool && plan.base.name != plan.overlayName))
            && (!prepared.1 ==>
                  && !prepared.0.overlayCreated
                  && (undone.0.host.pool == host.pool <==>
                        && !Leaves(plan, disposition, faults)
                        && (prepared.0.baseCreated ==> faults.deleteBase != FailsBefore)))
  {
    hide DispositionOf;
    DispositionMeans(host.pool, plan, consumers);
    var pool := host.pool;
    if plan.source == Clone {
      assert pool[plan.overlayName := OverlayVolume(plan)] - {plan.overlayName} == pool;
    } else if disposition == Prepare {
      var imported := pool[plan.base.name := BaseVolume(plan)];
      assert imported - {plan.base.name} == pool;
      if ImportWorks(faults.making) && OverlayLeaves(faults.overlay) && plan.overlayName != plan.base.name {
        var prepared := Prepared(s, plan, consumers, disposition, faults).0;
        assert plan.overlayName in RolledBack(prepared, plan, faults).0.host.pool;
      }
    }
  }

  lemma UndoneExtension(s: State, pool: Pool, plan: Plan, disposition: Disposition, faults: Faults)
    requires s.host.pool == Extended(pool, plan, disposition) && s.overlayCreated && plan.overlayName !in pool
    requires s.baseCreated <==> plan.source != Clone && disposition == Prepare
    requires s.baseCreated ==> plan.base.name !in pool && plan.base.name != plan.overlayName
    ensures RolledBack(s, plan, faults).0.host.pool == pool
       <==> faults.deleteOverlay != FailsBefore && (s.baseCreated ==> faults.deleteBase != FailsBefore)
  {
    var without := Extended(pool, plan, disposition) - {plan.overlayName};
    assert s.baseCreated ==> without == pool[plan.base.name := BaseVolume(plan)] && without - {plan.base.name} == pool;
    assert !s.baseCreated ==> without == pool;
    if faults.deleteOverlay == FailsBefore {
      assert plan.overlayName in RolledBack(s, plan, faults).0.host.pool;
    } else if s.baseCreated && faults.deleteBase == FailsBefore {
      assert plan.base.name in RolledBack(s, plan, faults).0.host.pool;
    }
  }

  /** Every deletion that a rollback makes takes effect. */
  predicate Deletable(s: State, faults: Faults) {
    (s.overlayCreated ==> faults.deleteOverlay != FailsBefore) && (s.baseCreated ==> faults.deleteBase != FailsBefore)
  }

  /** The base has been imported by this run, with success reported. */
  predicate Imported(plan: Plan, disposition: Disposition, faults: Faults) {
    plan.source != Clone && disposition == Prepare && ImportWorks(faults.making)
  }

  /** When each flag is raised, on the inputs: the overlay's by any preparation that succeeds. */
  lemma FlagsMean(host: Host, plan: Plan, consumers: seq<Entry>, disposition: Disposition, faults: Faults, s: State)
    requires StartsClean(host, plan, consumers, disposition)
    requires s.host == host && !s.baseCreated && !s.overlayCreated
    ensures var prepared := Prepared(s, plan, consumers, disposition, faults);
            && (prepared.0.overlayCreated <==> prepared.1)
            && (prepared.0.baseCreated <==> Imported(plan, disposition, faults))
  {
    hide DispositionOf;
    DispositionMeans(host.pool, plan, consumers);
  }

  /** The deletions that a rollback after this failure makes take effect. */
  predicate Undoes(plan: Plan, disposition: Disposition, faults: Faults, failed: Call) {
    && (failed != PrepareStorage ==> faults.deleteOverlay != FailsBefore)
    && (Imported(plan, disposition, faults) ==> faults.deleteBase != FailsBefore)
  }

  /**
   A create that failed before ownership leaves the pool exactly as it was if and only if no failing
   call left a volume behind and no deletion that the rollback makes failed before taking effect. Its
   manifest stays published exactly if publishing failed after it had taken effect.
   */
  lemma RollbackRestoresIff(host: Host, plan: Plan, consumers: seq<Entry>, faults: Faults, failed: Call,
                            rollbackFailed: bool)
    requires Execute(host, plan, consumers, faults).1 == Failure(BeforeOwnership(failed, rollbackFailed))
    requires failed != Revalidate
    ensures RevalidateTargets(host, plan, consumers, faults.revalidate).Some?
    ensures var disposition := RevalidateTargets(host, plan, consumers, faults.revalidate).value;
            && (Execute(host, plan, consumers, faults).0.host.pool == host.pool
                <==> !Leaves(plan, disposition, faults) && Undoes(plan, disposition, faults, failed))
            && (!rollbackFailed ==> Undoes(plan, disposition, faults, failed))
            && (failed != PrepareStorage ==> !Leaves(plan, disposition, faults))
    ensures Execute(host, plan, consumers, faults).0.host.index.None?
    ensures !Execute(host, plan, consumers, faults).0.host.domainDefined
    ensures Execute(host, plan, consumers, faults).0.host.manifest.None?
       <==> !(failed == PersistPreparing && faults.persist == FailsAfter)
  {
    hide DispositionOf, Observed, SameGeneration, Prepared, RolledBack, Leaves, Extended, ImportWorks;
    var disposition := RevalidateTargets(host, plan, consumers, faults.revalidate).value;
    var s := Logged(Logged(State(host, false, false, []), Revalidate), PrepareStorage);
    var prepared := Prepared(s, plan, consumers, disposition, faults);
    UndonePreparation(host, plan, consumers, disposition, faults, s);
    FlagsMean(host, plan, consumers, disposition, faults, s);
    PreparedCalls(s, plan, consumers, disposition, faults);
    RollbackKeeps(prepared.0, plan, faults);
    if prepared.1 {
      var before := if failed == InspectPreparing then Logged(prepared.0, InspectPreparing) else
        OwnedOrNot(prepared.0, plan, faults);
      OwnFails(prepared.0, plan, faults, failed, rollbackFailed);
      UndoneExtension(before, host.pool, plan, disposition, faults);
      RollbackKeeps(before, plan, faults);
    }
  }

  /** The state in which publishing has been attempted. */
  function OwnedOrNot(s: State, plan: Plan, faults: Faults): State {
    var inspecting := Logged(s, InspectPreparing);
    var observed := Observed(inspecting.host.pool, plan);
    var persisting := Logged(inspecting, PersistPreparing);
    if observed.None? then persisting
    else persisting.(host := Published(persisting.host, Manifest(plan.generationId, observed.value), faults.persist).0)
  }

  predicate Undone(s: State, before: State, plan: Plan, faults: Faults, rollbackFailed: bool) {
    && Own(s, plan, faults).0 == RolledBack(before, plan, faults).0
    && rollbackFailed == !RolledBack(before, plan, faults).1
    && before == s.(host := s.host.(manifest := before.host.manifest), calls := before.calls)
  }

  lemma OwnFails(s: State, plan: Plan, faults: Faults, failed: Call, rollbackFailed: bool)
    requires Own(s, plan, faults).1 == Failure(BeforeOwnership(failed, rollbackFailed))
    ensures failed == InspectPreparing ==> Undone(s, Logged(s, InspectPreparing), plan, faults, rollbackFailed)
    ensures failed != InspectPreparing ==>
              failed == PersistPreparing && Undone(s, OwnedOrNot(s, plan, faults), plan, faults, rollbackFailed)
    ensures failed == PersistPreparing && s.host.index.None? && s.host.manifest.None? ==>
              (OwnedOrNot(s, plan, faults).host.manifest.Some? <==> faults.persist == FailsAfter)
  {
    hide Observed, SameGeneration, RolledBack;
  }

  lemma RollbackKeeps(s: State, plan: Plan, faults: Faults)
    ensures RolledBack(s, plan, faults).0
         == s.(host := s.host.(pool := RolledBack(s, plan, faults).0.host.pool), calls := s.calls + [Rollback])
    ensures RolledBack(s, plan, faults).1 ==> Deletable(s, faults)
  {
  }

  /** Once every deletion of the rollback has worked, only stray volumes can remain. */
  lemma CleanRollbackRestoresIff(host: Host, plan: Plan, consumers: seq<Entry>, faults: Faults, failed: Call)
    requires Execute(host, plan, consumers, faults).1 == Failure(BeforeOwnership(failed, false))
    ensures Execute(host, plan, consumers, faults).0.host.pool == host.pool
       <==> (failed == PrepareStorage ==>
               RevalidateTargets(host, plan, consumers, faults.revalidate).Some?
               && !Leaves(plan, RevalidateTargets(host, plan, consumers, faults.revalidate).value, faults))
  {
    if failed != Revalidate {
      RollbackRestoresIff(host, plan, consumers, faults, failed, false);
    }
  }

  // ---------------------------------------------------------------- where it does not restore

  const EMPTY_HOST: Host := Host(map[], None, None, false)

  const SAMPLE_PLAN: Plan := Plan(
    false, false, false, false, true, Image, "gen-1", BaseImage("base", "/pool/base", "qcow2", 1),
    "overlay", "/pool/overlay", 1)

  const NO_MAKING_FAULTS: MakingFaults := MakingFaults(false, Works, false, Works, false)

  const NO_FAULTS: Faults :=
    Faults(false, false, NO_MAKING_FAULTS, NO_MAKING_FAULTS, false, Works, Works, false, Works, Works, Works)

  /**
   An import whose volume cannot be inspected once it is uploaded: the create fails before ownership, the
   rollback reports no failure, and the base stays in a pool that was empty.
   */
  lemma InspectionLeavesBase()
    ensures var faults := NO_FAULTS.(making := NO_MAKING_FAULTS.(after := true));
            var end := Execute(EMPTY_HOST, SAMPLE_PLAN, [], faults);
            && end.1 == Failure(BeforeOwnership(PrepareStorage, false))
            && end.0.host.pool == map["base" := BaseVolume(SAMPLE_PLAN)] != EMPTY_HOST.pool
  {
    var faults := NO_FAULTS.(making := NO_MAKING_FAULTS.(after := true));
    assert DispositionOf(EMPTY_HOST.pool, SAMPLE_PLAN, []) == Some(Prepare);
    assert RevalidateTargets(EMPTY_HOST, SAMPLE_PLAN, [], false) == Some(Prepare);
    assert ImportBase(EMPTY_HOST.pool, SAMPLE_PLAN, faults.making) == (map["base" := BaseVolume(SAMPLE_PLAN)], false);
  }

  /**
   Publishing that fails after its rename: the create fails before ownership, the rollback reports no
   failure and empties the pool, and the manifest of the removed storage stays published.
   */
  lemma PublishedManifestOfNothing()
    ensures var faults := NO_FAULTS.(persist := FailsAfter);
            var end := Execute(EMPTY_HOST, SAMPLE_PLAN, [], faults);
            && end.1 == Failure(BeforeOwnership(PersistPreparing, false))
            && end.0.host.pool == map[] && end.0.host.manifest.Some?
            && end.0.host.manifest.value.resources != [] && Observed(end.0.host.pool, SAMPLE_PLAN).None?
  {
    var faults := NO_FAULTS.(persist := FailsAfter);
    assert DispositionOf(EMPTY_HOST.pool, SAMPLE_PLAN, []) == Some(Prepare);
    assert RevalidateTargets(EMPTY_HOST, SAMPLE_PLAN, [], false) == Some(Prepare);
    var s := State(EMPTY_HOST, false, false, [Revalidate, PrepareStorage]);
    SampleIsPrepared(s);
    var prepared := Prepared(s, SAMPLE_PLAN, [], Prepare, faults).0;
    hide Prepared, RevalidateTargets;
    SampleIsObserved(prepared.host.pool);
    assert prepared.host.pool - {"overlay"} - {"base"} == map[];
  }

  lemma SampleIsPrepared(s: State)
    requires s.host == EMPTY_HOST && !s.baseCreated && !s.overlayCreated
    ensures Prepared(s, SAMPLE_PLAN, [], Prepare, NO_FAULTS.(persist := FailsAfter))
         == (s.(host := EMPTY_HOST.(pool := Extended(map[], SAMPLE_PLAN, Prepare)), baseCreated := true,
                overlayCreated := true), true)
  {
  }

  lemma SampleIsObserved(pool: Pool)
    requires pool == Extended(map[], SAMPLE_PLAN, Prepare)
    ensures Observed(pool, SAMPLE_PLAN).Some? && |Observed(pool, SAMPLE_PLAN).value| == 2
  {
  }

  // ---------------------------------------------------------------- what every run keeps

  /** Nothing that was there is gone or changed, and only the plan's two names are new. */
  predicate Grown(before: Pool, after: Pool, plan: Plan) {
    && (forall name :: name in before ==> name in after && after[name] == before[name])
    && (forall name :: name in after && name !in before ==> name == plan.overlayName || name == plan.base.name)
  }

  /** A raised flag stands for a volume that was not there before. */
  predicate FlagsAreOwn(before: Pool, s: State, plan: Plan) {
    && (s.overlayCreated ==> plan.overlayName !in before)
    && (s.baseCreated ==> plan.base.name !in before)
  }

  lemma ImportGrows(pool: Pool, plan: Plan, faults: MakingFaults)
    ensures Grown(pool, ImportBase(pool, plan, faults).0, plan)
    ensures ImportBase(pool, plan, faults).1 ==> plan.base.name !in pool
  {
    hide BaseVolume;
  }

  lemma CloneGrows(pool: Pool, plan: Plan, faults: MakingFaults)
    ensures Grown(pool, CloneVolume(pool, plan, faults).0, plan)
    ensures CloneVolume(pool, plan, faults).1 ==> plan.overlayName !in pool
  {
    hide OverlayVolume;
  }

  lemma MakingGrows(pool: Pool, plan: Plan, faults: MakingFaults)
    ensures Grown(pool, ImportBase(pool, plan, faults).0, plan)
    ensures ImportBase(pool, plan, faults).1 ==> plan.base.name !in pool
    ensures Grown(pool, CloneVolume(pool, plan, faults).0, plan)
    ensures CloneVolume(pool, plan, faults).1 ==> plan.overlayName !in pool
    ensures Grown(pool, CreateOverlay(pool, plan, faults).0, plan)
    ensures CreateOverlay(pool, plan, faults).1 ==> plan.overlayName !in pool
  {
    hide ImportBase, CloneVolume, OverlayVolume;
    ImportGrows(pool, plan, faults);
    CloneGrows(pool, plan, faults);
  }

  lemma GrownTwice(a: Pool, b: Pool, c: Pool, plan: Plan)
    requires Grown(a, b, plan) && Grown(b, c, plan)
    ensures Grown(a, c, plan)
    ensures plan.overlayName !in b ==> plan.overlayName !in a
  {
  }

  lemma PreparationGrows(s: State, plan: Plan, consumers: seq<Entry>, disposition: Disposition, faults: Faults)
    requires !s.overlayCreated && !s.baseCreated
    ensures Grown(s.host.pool, Prepared(s, plan, consumers, disposition, faults).0.host.pool, plan)
    ensures FlagsAreOwn(s.host.pool, Prepared(s, plan, consumers, disposition, faults).0, plan)
  {
    hide DispositionOf, ImportBase, CloneVolume, CreateOverlay, Grown;
    var pool := s.host.pool;
    assert Grown(pool, pool, plan) by { GrownAlready(pool, plan); }
    MakingGrows(pool, plan, faults.making);
    MakingGrows(pool, plan, faults.overlay);
    var imported := ImportBase(pool, plan, faults.making);
    if imported.1 {
      MakingGrows(imported.0, plan, faults.overlay);
      GrownTwice(pool, imported.0, CreateOverlay(imported.0, plan, faults.overlay).0, plan);
    }
  }

  lemma GrownAlready(pool: Pool, plan: Plan)
    ensures Grown(pool, pool, plan)
  {
  }

  lemma RollbackGrows(before: Pool, s: State, plan: Plan, faults: Faults)
    requires Grown(before, s.host.pool, plan) && FlagsAreOwn(before, s, plan)
    ensures Grown(before, RolledBack(s, plan, faults).0.host.pool, plan)
  {
  }

  lemma CommitKeepsPool(s: State, manifest: Manifest, plan: Plan, faults: Faults)
    ensures Commit(s, manifest, plan, faults).0.host.pool == s.host.pool
  {
    hide Observed, SameGeneration;
  }

  /** What a rollback does to the pool depends on the pool and the flags alone. */
  lemma SameRollback(s: State, t: State, plan: Plan, faults: Faults)
    requires s.host.pool == t.host.pool && s.baseCreated == t.baseCreated && s.overlayCreated == t.overlayCreated
    ensures RolledBack(s, plan, faults).0.host.pool == RolledBack(t, plan, faults).0.host.pool
  {
    hide DeleteVolume;
  }

  lemma OwnKeepsOrUndoes(s: State, plan: Plan, faults: Faults)
    ensures Own(s, plan, faults).0.host.pool == s.host.pool
            || Own(s, plan, faults).0.host.pool == RolledBack(s, plan, faults).0.host.pool
  {
    hide Observed, SameGeneration, DeleteVolume, RolledBack, Commit;
    var inspecting := Logged(s, InspectPreparing);
    var observed := Observed(inspecting.host.pool, plan);
    SameRollback(s, inspecting, plan, faults);
    if observed.Some? {
      var persisting := Logged(inspecting, PersistPreparing);
      var manifest := Manifest(plan.generationId, observed.value);
      var owned := persisting.(host := Published(persisting.host, manifest, faults.persist).0);
      SameRollback(s, owned, plan, faults);
      CommitKeepsPool(owned, manifest, plan, faults);
    }
  }

  /**
   In every run, whatever fails, no volume that existed before is removed or changed: neither a reused
   base nor an overlay of another instance, even one of a planned name.
   */
  lemma NothingIsRemoved(host: Host, plan: Plan, consumers: seq<Entry>, faults: Faults)
    ensures Grown(host.pool, Execute(host, plan, consumers, faults).0.host.pool, plan)
  {
    hide DispositionOf, Observed, SameGeneration, Prepared, RolledBack, Own;
    var disposition := RevalidateTargets(host, plan, consumers, faults.revalidate);
    if Supported(plan) && disposition.Some? {
      var s := Logged(Logged(State(host, false, false, []), Revalidate), PrepareStorage);
      PreparationGrows(s, plan, consumers, disposition.value, faults);
      var prepared := Prepared(s, plan, consumers, disposition.value, faults);
      RollbackGrows(host.pool, prepared.0, plan, faults);
      if prepared.1 {
        OwnKeepsOrUndoes(prepared.0, plan, faults);
      }
    }
  }

  // ---------------------------------------------------------------- beyond the commit point

  predicate PastCommit(result: Result<(), CreateError>) {
    result.Success? || result.error.RecoveryRequired?
  }

  /** What the manifest of a run records. */
  function PlannedManifest(plan: Plan, base: Volume): Manifest {
    var overlay := ManagedOf(OverlayRole, plan.overlayName, OverlayVolume(plan));
    Manifest(plan.generationId,
             if plan.source == Clone then [overlay] else [ManagedOf(BaseRole, plan.base.name, base), overlay])
  }

  lemma ExtendedIsObserved(host: Host, plan: Plan, consumers: seq<Entry>, disposition: Disposition)
    requires StartsClean(host, plan, consumers, disposition)
    requires plan.source != Clone && disposition == Prepare ==> plan.base.name != plan.overlayName
    ensures var pool := Extended(host.pool, plan, disposition);
            && (plan.source != Clone ==> plan.base.name in pool)
            && var base := if plan.source == Clone then BaseVolume(plan) else pool[plan.base.name];
               var manifest := PlannedManifest(plan, base);
               Observed(pool, plan) == Some(manifest.resources) && SameGeneration(manifest, manifest.resources)
  {
    hide DispositionOf;
    DispositionMeans(host.pool, plan, consumers);
    var pool := Extended(host.pool, plan, disposition);
    var manifest := PlannedManifest(plan, if plan.source == Clone then BaseVolume(plan) else pool[plan.base.name]);
    if plan.source != Clone {
      assert manifest.resources[0].role == BaseRole && manifest.resources[1].role == OverlayRole;
    }
  }

  lemma CommittedHost(s: State, manifest: Manifest, plan: Plan, faults: Faults)
    requires s.host.manifest == Some(manifest) && s.host.index.None?
    requires Observed(s.host.pool, plan) == Some(manifest.resources) && SameGeneration(manifest, manifest.resources)
    ensures var run := Commit(s, manifest, plan, faults);
            && PastCommit(run.1)
            && run.0.host.pool == s.host.pool && run.0.host.manifest == Some(manifest)
            && (run.1.Success? <==>
                  faults.define == Works && !faults.inspectDefined && faults.activate == Works)
            && (run.1.Success? ==> run.0.host == Host(s.host.pool, Some(manifest), Some(manifest.generationId), true))
  {
    hide Observed, SameGeneration;
  }

  /**
   Once the manifest's publication has reported success, the run ends with everything in place: the
   pool is the old one with exactly the plan's volumes, and the manifest records them as they are, so
   that explicit recovery finds what it compares against.
   */
  lemma RecoveryFindsEverything(host: Host, plan: Plan, consumers: seq<Entry>, faults: Faults)
    requires PastCommit(Execute(host, plan, consumers, faults).1)
    ensures RevalidateTargets(host, plan, consumers, faults.revalidate).Some?
    ensures var end := Execute(host, plan, consumers, faults).0.host;
            && end.pool == Extended(host.pool, plan, RevalidateTargets(host, plan, consumers, faults.revalidate).value)
            && end.manifest.Some? && Observed(end.pool, plan) == Some(end.manifest.value.resources)
            && SameGeneration(end.manifest.value, end.manifest.value.resources)
            && end.manifest.value.generationId == plan.generationId
    ensures Execute(host, plan, consumers, faults).1.Success? ==>
              Execute(host, plan, consumers, faults).0.host.index == Some(plan.generationId)
              && Execute(host, plan, consumers, faults).0.host.domainDefined
  {
    hide DispositionOf, Observed, SameGeneration, Prepared, RolledBack, Commit, Extended;
    var disposition := RevalidateTargets(host, plan, consumers, faults.revalidate).value;
    var s := Logged(Logged(State(host, false, false, []), Revalidate), PrepareStorage);
    var prepared := Prepared(s, plan, consumers, disposition, faults);
    UndonePreparation(host, plan, consumers, disposition, faults, s);
    PreparedCalls(s, plan, consumers, disposition, faults);
    ExtendedIsObserved(host, plan, consumers, disposition);
    Committing(prepared.0, plan, faults);
  }

  /** From prepared storage, a run that gets past the commit point went through `Commit`. */
  lemma Committing(s: State, plan: Plan, faults: Faults)
    requires s.host.manifest.None? && s.host.index.None? && Observed(s.host.pool, plan).Some?
    requires SameGeneration(Manifest(plan.generationId, Observed(s.host.pool, plan).value),
                            Observed(s.host.pool, plan).value)
    ensures PastCommit(Own(s, plan, faults).1) <==> !faults.inspectPreparing && faults.persist == Works
    ensures var end := Own(s, plan, faults);
            var manifest := Manifest(plan.generationId, Observed(s.host.pool, plan).value);
            && (PastCommit(end.1) ==> end.0.host.pool == s.host.pool && end.0.host.manifest == Some(manifest))
            && (end.1.Success? ==> end.0.host == Host(s.host.pool, Some(manifest), Some(plan.generationId), true))
    ensures Own(s, plan, faults).1.Success?
       <==> (&& !faults.inspectPreparing && faults.persist == Works && faults.define == Works
             && !faults.inspectDefined && faults.activate == Works)
  {
    hide Observed, SameGeneration, RolledBack, Commit;
    var manifest := Manifest(plan.generationId, Observed(s.host.pool, plan).value);
    var persisting := Logged(Logged(s, InspectPreparing), PersistPreparing);
    var owned := persisting.(host := Published(persisting.host, manifest, faults.persist).0);
    if faults.persist == Works {
      CommittedHost(owned, manifest, plan, faults);
    }
  }

  predicate Faultless(faults: Faults) {
    && !faults.revalidate && !faults.reuse && ImportWorks(faults.making) && ImportWorks(faults.overlay)
    && !faults.inspectPreparing && faults.persist == Works && faults.define == Works && !faults.inspectDefined
    && faults.activate == Works
  }

  // ---------------------------------------------------------------- the single calls, on any state

  /** The generation as it is recorded: an overlay without a backing file alone, or one with its base. */
  lemma ObservedIff(pool: Pool, plan: Plan, resources: seq<Managed>)
    ensures Observed(pool, plan) == Some(resources)
       <==> (&& plan.overlayName in pool
             && var v := pool[plan.overlayName];
                var overlay :=
                  Managed(OverlayRole, plan.overlayName, v.key, v.path, v.format, v.capacityBytes, v.backingPath);
                if v.backingPath == None then resources == [overlay]
                else
                  && plan.base.name in pool && Some(pool[plan.base.name].path) == v.backingPath
                  && var b := pool[plan.base.name];
                     resources
                     == [Managed(BaseRole, plan.base.name, b.key, b.path, b.format, b.capacityBytes, b.backingPath),
                         overlay])
  {
  }

  /** A manifest matches what is observed: as many resources, all of them recorded alike, and of the right roles. */
  lemma SameGenerationIff(manifest: Manifest, observed: seq<Managed>)
    ensures SameGeneration(manifest, observed)
       <==> (&& |manifest.resources| == |observed| && (forall r :: r in manifest.resources ==> r in observed)
             && if |observed| == 1 then observed[0].role == OverlayRole
                else
                  && 2 <= |observed| <= 3
                  && (exists i :: 0 <= i < |observed| && manifest.resources[i].role == BaseRole)
                  && exists i :: 0 <= i < |observed| && manifest.resources[i].role == OverlayRole)
  {
    assert forall i :: 0 <= i < |manifest.resources| ==> manifest.resources[i] in manifest.resources;
    if |observed| == 1 && SameGeneration(manifest, observed) {
      assert manifest.resources[0] in observed;
    }
    RolesAt(manifest.resources);
  }

  lemma RolesAt(resources: seq<Managed>)
    ensures Backed(resources)
       <==> (&& (exists i :: 0 <= i < |resources| && resources[i].role == BaseRole)
             && exists i :: 0 <= i < |resources| && resources[i].role == OverlayRole)
  {
    if Backed(resources) {
      var base :| base in resources && base.role == BaseRole;
      var overlay :| overlay in resources && overlay.role == OverlayRole;
      var i :| 0 <= i < |resources| && resources[i] == base;
      var j :| 0 <= j < |resources| && resources[j] == overlay;
    }
    assert forall i :: 0 <= i < |resources| ==> resources[i] in resources;
  }

  /** The first index is written only over the very manifest that was published, and only once. */
  lemma ActivatedIff(host: Host, manifest: Manifest, observed: seq<Managed>, fault: Fault)
    ensures var may := host.index == None && host.manifest == Some(manifest) && SameGeneration(manifest, observed);
            Activated(host, manifest, observed, fault)
            == if may && fault != FailsBefore
               then (Host(host.pool, host.manifest, Some(manifest.generationId), host.domainDefined), fault == Works)
               else (host, false)
    ensures Published(host, manifest, fault)
         == if host.index == None && host.manifest == None && fault != FailsBefore
            then (Host(host.pool, Some(manifest), None, host.domainDefined), fault == Works)
            else (host, false)
  {
    hide SameGeneration;
  }

  /** A base is reused only if it is still proven when storage is prepared, whatever was found before. */
  lemma ReuseIsProvenAgain(s: State, plan: Plan, consumers: seq<Entry>, faults: Faults)
    requires plan.source != Clone
    ensures Prepared(s, plan, consumers, ReuseProven, faults).1 ==>
              plan.base.name in s.host.pool && BaseReady(s.host.pool, plan, consumers)
    ensures !(plan.base.name in s.host.pool && BaseReady(s.host.pool, plan, consumers)) ==>
              Prepared(s, plan, consumers, ReuseProven, faults) == (s, false)
  {
    DispositionIff(s.host.pool, plan, consumers);
    DispositionMeans(s.host.pool, plan, consumers);
    hide DispositionOf, BaseReady, CreateOverlay;
  }

  // ---------------------------------------------------------------- how every run ends

  /** The pool holds exactly the base that the plan expects, backed by nothing. */
  predicate HasPlannedBase(pool: Pool, base: BaseImage) {
    && base.name in pool
    && pool[base.name] == Volume(pool[base.name].key, base.path, base.format, base.capacityBytes, None)
  }

  /** Some instance records exactly this base, and every other is sound and records the same or none. */
  predicate Vouched(consumers: seq<Entry>, base: BaseImage) {
    var found := Found(base.name, base.path, base.format, base.capacityBytes, None);
    exists i :: && 0 <= i < |consumers| && Recorded(consumers[i], base.name).Some?
                && IsRecordOf(base, Recorded(consumers[i], base.name).value)
                && AllRecord(consumers, base.name, found, Recorded(consumers[i], base.name).value)
  }

  /** A clone needs no base, a promoted base must be there as recorded, and any other is absent or vouched for. */
  predicate BaseReady(pool: Pool, plan: Plan, consumers: seq<Entry>) {
    match plan.source
    case Clone => true
    case Promoted(base) => HasPlannedBase(pool, plan.base) && IsRecordOf(plan.base, base)
    case Image => plan.base.name !in pool || (HasPlannedBase(pool, plan.base) && Vouched(consumers, plan.base))
  }

  /** Nothing of what the plan creates is there yet, and its base may be used. */
  predicate TargetsReady(host: Host, plan: Plan, consumers: seq<Entry>) {
    && host.manifest == None && host.index == None && !host.domainDefined && plan.overlayName !in host.pool
    && BaseReady(host.pool, plan, consumers)
  }

  predicate MakesBase(host: Host, plan: Plan) {
    plan.source == Image && plan.base.name !in host.pool
  }

  lemma VouchedIff(consumers: seq<Entry>, base: BaseImage)
    ensures var found := Found(base.name, base.path, base.format, base.capacityBytes, None);
            Vouched(consumers, base)
            <==> (&& SharedBaseProof(consumers, base.name, found).Success?
                  && IsRecordOf(base, SharedBaseProof(consumers, base.name, found).value.resource))
  {
    var found := Found(base.name, base.path, base.format, base.capacityBytes, None);
    if Vouched(consumers, base) {
      var i :| && 0 <= i < |consumers| && Recorded(consumers[i], base.name).Some?
               && IsRecordOf(base, Recorded(consumers[i], base.name).value)
               && AllRecord(consumers, base.name, found, Recorded(consumers[i], base.name).value);
      ProvenIff(consumers, base.name, found, Recorded(consumers[i], base.name).value);
    }
    if SharedBaseProof(consumers, base.name, found).Success? {
      ProvenIff(consumers, base.name, found, SharedBaseProof(consumers, base.name, found).value.resource);
    }
    hide SharedBaseProof, AllRecord, IsRecordOf, Recorded;
  }

  /** What the base is used for, on the pool and the recorded instances alone. */
  lemma DispositionIff(pool: Pool, plan: Plan, consumers: seq<Entry>)
    requires plan.source != Clone
    ensures DispositionOf(pool, plan, consumers).Some? <==> BaseReady(pool, plan, consumers)
    ensures DispositionOf(pool, plan, consumers) == Some(Prepare) <==> plan.source == Image && plan.base.name !in pool
  {
    VouchedIff(consumers, plan.base);
    if plan.base.name in pool {
      var found := FoundVolume(pool, plan.base.name).value;
      ClassifiedIff(plan.base, Some(found), Evidence(plan, consumers, found));
      assert IsPlanned(plan.base, found) <==> HasPlannedBase(pool, plan.base);
    }
    hide Classify, SharedBaseProof, Vouched;
  }

  predicate OverlayWorks(f: MakingFaults) {
    !f.before && f.create == Works && !f.after
  }

  /** Storage is prepared: the base made or proven once more, and the overlay made under another name. */
  predicate StorageWorks(host: Host, plan: Plan, faults: Faults) {
    if plan.source == Clone then ImportWorks(faults.making)
    else if MakesBase(host, plan) then
      ImportWorks(faults.making) && plan.base.name != plan.overlayName && OverlayWorks(faults.overlay)
    else !faults.reuse && OverlayWorks(faults.overlay)
  }

  /** A rollback fails exactly if it deletes a volume that this run has made, and the deletion fails. */
  predicate UndoFails(host: Host, plan: Plan, faults: Faults, failed: Call) {
    || (failed != PrepareStorage && faults.deleteOverlay != Works)
    || (MakesBase(host, plan) && ImportWorks(faults.making) && faults.deleteBase != Works)
  }

  /** Whether this step fails, given that all before it have worked. */
  predicate StepFails(host: Host, plan: Plan, consumers: seq<Entry>, faults: Faults, step: Call) {
    match step
    case Revalidate => faults.revalidate || !TargetsReady(host, plan, consumers)
    case PrepareStorage => !StorageWorks(host, plan, faults)
    case InspectPreparing => faults.inspectPreparing
    case PersistPreparing => faults.persist != Works
    case DefineDomain => faults.define != Works
    case InspectDefined => faults.inspectDefined
    case Activate => faults.activate != Works
    case Rollback => false
  }

  predicate FirstToFail(host: Host, plan: Plan, consumers: seq<Entry>, faults: Faults, k: int) {
    && 0 <= k < |STEPS| && StepFails(host, plan, consumers, faults, STEPS[k])
    && forall i :: 0 <= i < k ==> !StepFails(host, plan, consumers, faults, STEPS[i])
  }

  /** The preparation on a ready host, with what it has made. */
  lemma PreparationEnds(host: Host, plan: Plan, consumers: seq<Entry>, faults: Faults)
    requires TargetsReady(host, plan, consumers) && !faults.revalidate
    ensures RevalidateTargets(host, plan, consumers, false).Some?
    ensures var s := Logged(Logged(State(host, false, false, []), Revalidate), PrepareStorage);
            var disposition := RevalidateTargets(host, plan, consumers, false).value;
            var prepared := Prepared(s, plan, consumers, disposition, faults);
            && (prepared.1 <==> StorageWorks(host, plan, faults))
            && (plan.source != Clone ==> (disposition == Prepare <==> MakesBase(host, plan)))
            && StartsClean(host, plan, consumers, disposition)
  {
    if plan.source != Clone {
      DispositionIff(host.pool, plan, consumers);
    }
    hide DispositionOf, BaseReady;
  }

  lemma RevalidationEnds(host: Host, plan: Plan, consumers: seq<Entry>, fails: bool)
    ensures RevalidateTargets(host, plan, consumers, fails).Some? <==> !fails && TargetsReady(host, plan, consumers)
  {
    if plan.source != Clone {
      DispositionIff(host.pool, plan, consumers);
    }
    hide DispositionOf, BaseReady;
  }

  lemma RollbackEnds(s: State, plan: Plan, faults: Faults)
    requires s.overlayCreated ==> plan.overlayName in s.host.pool
    requires s.baseCreated ==> plan.base.name in s.host.pool
    requires s.baseCreated && s.overlayCreated ==> plan.base.name != plan.overlayName
    ensures RolledBack(s, plan, faults).1
       <==> (s.overlayCreated ==> faults.deleteOverlay == Works) && (s.baseCreated ==> faults.deleteBase == Works)
  {
  }

  /** A run from prepared storage: the first failing step decides, and whether its rollback fails. */
  lemma OwnEnds(s: State, plan: Plan, faults: Faults)
    requires s.host.manifest.None? && s.host.index.None? && Observed(s.host.pool, plan).Some?
    requires SameGeneration(Manifest(plan.generationId, Observed(s.host.pool, plan).value),
                            Observed(s.host.pool, plan).value)
    requires s.overlayCreated && plan.overlayName in s.host.pool
    requires s.baseCreated ==> plan.base.name in s.host.pool && plan.base.name != plan.overlayName
    ensures var undoFails := faults.deleteOverlay != Works || (s.baseCreated && faults.deleteBase != Works);
            Own(s, plan, faults).1
            == if faults.inspectPreparing then Failure(BeforeOwnership(InspectPreparing, undoFails))
               else if faults.persist != Works then Failure(BeforeOwnership(PersistPreparing, undoFails))
               else if faults.define != Works then Failure(RecoveryRequired(DefineDomain))
               else if faults.inspectDefined then Failure(RecoveryRequired(InspectDefined))
               else if faults.activate != Works then Failure(RecoveryRequired(Activate))
               else Success(())
  {
    hide Observed, SameGeneration, DeleteVolume;
    var inspecting := Logged(s, InspectPreparing);
    var persisting := OwnedOrNot(s, plan, faults);
    RollbackEnds(inspecting, plan, faults);
    RollbackEnds(persisting, plan, faults);
    hide RolledBack;
  }

  /**
   How every run ends, with any failures: a plan of another kind is refused; else the first step that
   fails decides, before ownership with whether the rollback failed, and after it as recovery required;
   and only if none fails is the guest created.
   */
  lemma CreateEnds(host: Host, plan: Plan, consumers: seq<Entry>, faults: Faults)
    ensures Execute(host, plan, consumers, faults).1 == Failure(InvalidPlan)
       <==> plan.mutation || plan.autoBoot || plan.hasObservations || plan.hasSeed || !plan.manualGuest
    ensures Execute(host, plan, consumers, faults).1 == Failure(InvalidPlan)
       <==> Execute(host, plan, consumers, faults).0.calls == []
    ensures Execute(host, plan, consumers, faults).1 != Failure(InvalidPlan) ==>
              && (forall k :: FirstToFail(host, plan, consumers, faults, k) ==>
                    Execute(host, plan, consumers, faults).1
                    == Failure(if k == 0 then BeforeOwnership(Revalidate, false)
                               else if k <= 3 then BeforeOwnership(STEPS[k], UndoFails(host, plan, faults, STEPS[k]))
                               else RecoveryRequired(STEPS[k])))
              && ((forall k :: 0 <= k < |STEPS| ==> !StepFails(host, plan, consumers, faults, STEPS[k])) ==>
                    Execute(host, plan, consumers, faults).1 == Success(()))
  {
    CallsAreOrdered(host, plan, consumers, faults);
    RevalidationEnds(host, plan, consumers, faults.revalidate);
    if Supported(plan) && RevalidateTargets(host, plan, consumers, faults.revalidate).Some? {
      PreparedRunEnds(host, plan, consumers, faults);
    }
    hide RevalidateTargets, Prepared, Own, RolledBack, TargetsReady, StorageWorks, UndoFails;
    FirstOfSteps(host, plan, consumers, faults);
  }

  /** The run of a ready host. */
  lemma PreparedRunEnds(host: Host, plan: Plan, consumers: seq<Entry>, faults: Faults)
    requires Supported(plan) && TargetsReady(host, plan, consumers) && !faults.revalidate
    ensures Execute(host, plan, consumers, faults).1
         == if !StorageWorks(host, plan, faults)
            then Failure(BeforeOwnership(PrepareStorage, UndoFails(host, plan, faults, PrepareStorage)))
            else if faults.inspectPreparing
            then Failure(BeforeOwnership(InspectPreparing, UndoFails(host, plan, faults, InspectPreparing)))
            else if faults.persist != Works
            then Failure(BeforeOwnership(PersistPreparing, UndoFails(host, plan, faults, PersistPreparing)))
            else if faults.define != Works then Failure(RecoveryRequired(DefineDomain))
            else if faults.inspectDefined then Failure(RecoveryRequired(InspectDefined))
            else if faults.activate != Works then Failure(RecoveryRequired(Activate))
            else Success(())
  {
    var s := Logged(Logged(State(host, false, false, []), Revalidate), PrepareStorage);
    PreparationEnds(host, plan, consumers, faults);
    var disposition := RevalidateTargets(host, plan, consumers, false).value;
    var prepared := Prepared(s, plan, consumers, disposition, faults);
    FlagsMean(host, plan, consumers, disposition, faults, s);
    PreparedCalls(s, plan, consumers, disposition, faults);
    UndonePreparation(host, plan, consumers, disposition, faults, s);
    if prepared.1 {
      ExtendedIsObserved(host, plan, consumers, disposition);
      OwnEnds(prepared.0, plan, faults);
    } else {
      FailedPreparation(s, plan, consumers, disposition, faults);
      RollbackEnds(prepared.0, plan, faults);
    }
    hide RevalidateTargets, Prepared, Own, RolledBack, TargetsReady, StorageWorks, Observed, SameGeneration,
         StartsClean, Supported, Leaves, PlannedManifest, ImportWorks;
  }

  lemma FailedPreparation(s: State, plan: Plan, consumers: seq<Entry>, disposition: Disposition, faults: Faults)
    requires !s.baseCreated && !s.overlayCreated && !Prepared(s, plan, consumers, disposition, faults).1
    ensures !Prepared(s, plan, consumers, disposition, faults).0.overlayCreated
    ensures Prepared(s, plan, consumers, disposition, faults).0.baseCreated ==>
              plan.base.name in Prepared(s, plan, consumers, disposition, faults).0.host.pool
  {
    hide DispositionOf;
  }

  /** The overlay as a plan describes it, and the base as it is planned under this key. */
  function PlannedOverlay(plan: Plan): Managed {
    Managed(OverlayRole, plan.overlayName, plan.overlayPath, plan.overlayPath, "qcow2", plan.diskBytes,
            if plan.source == Clone then None else Some(plan.base.path))
  }

  function PlannedBase(base: BaseImage, key: string): Managed {
    Managed(BaseRole, base.name, key, base.path, base.format, base.capacityBytes, None)
  }

  /** The durable state and the domain, from the commit point on. */
  lemma CommitEnds(s: State, manifest: Manifest, plan: Plan, faults: Faults)
    requires s.host.manifest == Some(manifest) && s.host.index.None? && !s.host.domainDefined
    requires Observed(s.host.pool, plan) == Some(manifest.resources) && SameGeneration(manifest, manifest.resources)
    ensures var activated := faults.define == Works && !faults.inspectDefined && faults.activate != FailsBefore;
            Commit(s, manifest, plan, faults).0.host
            == Host(s.host.pool, Some(manifest), if activated then Some(manifest.generationId) else None,
                    faults.define != FailsBefore)
  {
    hide Observed, SameGeneration;
  }

  lemma OwnedHost(s: State, manifest: Manifest, plan: Plan, faults: Faults)
    requires s.host.manifest.None? && s.host.index.None? && !s.host.domainDefined
    requires manifest.generationId == plan.generationId && Observed(s.host.pool, plan) == Some(manifest.resources)
    requires SameGeneration(manifest, manifest.resources)
    requires PastCommit(Own(s, plan, faults).1)
    ensures var activated := faults.define == Works && !faults.inspectDefined && faults.activate != FailsBefore;
            Own(s, plan, faults).0.host
            == Host(s.host.pool, Some(manifest), if activated then Some(plan.generationId) else None,
                    faults.define != FailsBefore)
  {
    hide Observed, SameGeneration, RolledBack, Commit;
    var persisting := Logged(Logged(s, InspectPreparing), PersistPreparing);
    if faults.persist == Works {
      CommitEnds(persisting.(host := Published(persisting.host, manifest, faults.persist).0), manifest, plan, faults);
    }
  }

  /**
   What a run past the commit point leaves: the manifest names the planned overlay and the base as it is,
   the index is there if activation has taken effect, and the domain if defining it has.
   */
  lemma CommittedEnds(host: Host, plan: Plan, consumers: seq<Entry>, faults: Faults)
    requires PastCommit(Execute(host, plan, consumers, faults).1)
    ensures var end := Execute(host, plan, consumers, faults).0.host;
            var activated := faults.define == Works && !faults.inspectDefined && faults.activate != FailsBefore;
            && (!MakesBase(host, plan) && plan.source != Clone ==> plan.base.name in host.pool)
            && var key := if MakesBase(host, plan) || plan.source == Clone then plan.base.path
                          else host.pool[plan.base.name].key;
               var overlay, base := PlannedOverlay(plan), PlannedBase(plan.base, key);
            && end.manifest
               == Some(Manifest(plan.generationId, if plan.source == Clone then [overlay] else [base, overlay]))
            && end.index == (if activated then Some(plan.generationId) else None)
            && end.domainDefined == (faults.define != FailsBefore)
  {
    RevalidationEnds(host, plan, consumers, faults.revalidate);
    var s := Logged(Logged(State(host, false, false, []), Revalidate), PrepareStorage);
    PreparationEnds(host, plan, consumers, faults);
    var disposition := RevalidateTargets(host, plan, consumers, false).value;
    var prepared := Prepared(s, plan, consumers, disposition, faults);
    PreparedCalls(s, plan, consumers, disposition, faults);
    UndonePreparation(host, plan, consumers, disposition, faults, s);
    ExtendedIsObserved(host, plan, consumers, disposition);
    var pool := Extended(host.pool, plan, disposition);
    var manifest := PlannedManifest(plan, if plan.source == Clone then BaseVolume(plan) else pool[plan.base.name]);
    ReadyBaseIsPlanned(host, plan, consumers, disposition);
    hide Prepared, RolledBack, Own, Extended, TargetsReady, StorageWorks, Observed, SameGeneration, PlannedManifest,
         StartsClean, Leaves, ImportWorks;
    OwnedHost(prepared.0, manifest, plan, faults);
  }

  lemma ReadyBaseIsPlanned(host: Host, plan: Plan, consumers: seq<Entry>, disposition: Disposition)
    requires TargetsReady(host, plan, consumers)
    requires plan.source != Clone ==> (disposition == Prepare <==> MakesBase(host, plan))
    requires plan.source != Clone ==>
               plan.base.name in Extended(host.pool, plan, disposition) && plan.base.name != plan.overlayName
    ensures var pool := Extended(host.pool, plan, disposition);
            && (!MakesBase(host, plan) && plan.source != Clone ==> plan.base.name in host.pool)
            && var key := if MakesBase(host, plan) || plan.source == Clone then plan.base.path
                          else host.pool[plan.base.name].key;
               PlannedManifest(plan, if plan.source == Clone then BaseVolume(plan) else pool[plan.base.name]).resources
               == if plan.source == Clone then [PlannedOverlay(plan)]
                  else [PlannedBase(plan.base, key), PlannedOverlay(plan)]
  {
  }

  /** The step that fails first, spelled out over the steps in turn. */
  lemma FirstOfSteps(host: Host, plan: Plan, consumers: seq<Entry>, faults: Faults)
    ensures (exists k :: FirstToFail(host, plan, consumers, faults, k))
         || forall k :: 0 <= k < |STEPS| ==> !StepFails(host, plan, consumers, faults, STEPS[k])
    ensures forall k :: FirstToFail(host, plan, consumers, faults, k) ==>
              k == if faults.revalidate || !TargetsReady(host, plan, consumers) then 0
                   else if !StorageWorks(host, plan, faults) then 1
                   else if faults.inspectPreparing then 2
                   else if faults.persist != Works then 3
                   else if faults.define != Works then 4
                   else if faults.inspectDefined then 5
                   else 6
    ensures forall k :: FirstToFail(host, plan, consumers, faults, k) && k == 6 ==> faults.activate != Works
    ensures (forall k :: 0 <= k < |STEPS| ==> !StepFails(host, plan, consumers, faults, STEPS[k]))
       <==> (&& !faults.revalidate && TargetsReady(host, plan, consumers) && StorageWorks(host, plan, faults)
             && !faults.inspectPreparing && faults.persist == Works && faults.define == Works
             && !faults.inspectDefined && faults.activate == Works)
  {
    hide TargetsReady, StorageWorks;
    assert StepFails(host, plan, consumers, faults, STEPS[0]) <==> StepFails(host, plan, consumers, faults, Revalidate);
    assert StepFails(host, plan, consumers, faults, STEPS[1]) <==> !StorageWorks(host, plan, faults);
    assert StepFails(host, plan, consumers, faults, STEPS[2]) <==> faults.inspectPreparing;
    assert StepFails(host, plan, consumers, faults, STEPS[3]) <==> faults.persist != Works;
    assert StepFails(host, plan, consumers, faults, STEPS[4]) <==> faults.define != Works;
    assert StepFails(host, plan, consumers, faults, STEPS[5]) <==> faults.inspectDefined;
    assert StepFails(host, plan, consumers, faults, STEPS[6]) <==> faults.activate != Works;
    FirstExists(host, plan, consumers, faults, 0);
  }

  lemma FirstExists(host: Host, plan: Plan, consumers: seq<Entry>, faults: Faults, k: nat)
    requires k <= |STEPS| && forall i :: 0 <= i < k ==> !StepFails(host, plan, consumers, faults, STEPS[i])
    ensures (exists j :: FirstToFail(host, plan, consumers, faults, j))
         || forall i :: 0 <= i < |STEPS| ==> !StepFails(host, plan, consumers, faults, STEPS[i])
    decreases |STEPS| - k
  {
    hide StepFails;
    if k < |STEPS| {
      if StepFails(host, plan, consumers, faults, STEPS[k]) {
        assert FirstToFail(host, plan, consumers, faults, k);
      } else {
        FirstExists(host, plan, consumers, faults, k + 1);
      }
    }
  }

  /** Without failures a create succeeds exactly for supported plans on a ready host. */
  lemma FaultlessSucceedsIff(host: Host, plan: Plan, consumers: seq<Entry>, faults: Faults)
    requires Faultless(faults)
    ensures Execute(host, plan, consumers, faults).1.Success?
       <==> (&& !plan.mutation && !plan.autoBoot && !plan.hasObservations && !plan.hasSeed && plan.manualGuest
             && TargetsReady(host, plan, consumers)
             && (plan.source != Clone ==> plan.base.name != plan.overlayName))
  {
    CreateEnds(host, plan, consumers, faults);
    FirstOfSteps(host, plan, consumers, faults);
    hide Execute, StepFails, FirstToFail;
  }

  // ---------------------------------------------------------------- the transaction as it runs

  /** The backend of manual guests, with the flags that limit what its rollback may touch. */
  class ManualGuestBackend {
    var host: Host
    var baseCreated: bool
    var overlayCreated: bool
    ghost var calls: seq<Call>
    const faults: Faults
    const consumers: seq<Entry>

    constructor (host: Host, consumers: seq<Entry>, faults: Faults)
      ensures Abstract() == State(host, false, false, []) && this.consumers == consumers && this.faults == faults
    {
      this.host, this.baseCreated, this.overlayCreated, this.calls := host, false, false, [];
      this.faults, this.consumers := faults, consumers;
    }

    ghost function Abstract(): State
      reads this
    {
      State(host, baseCreated, overlayCreated, calls)
    }

    method Revalidate(plan: Plan) returns (disposition: Option<Disposition>)
      modifies this`calls
      ensures Abstract() == Logged(old(Abstract()), Call.Revalidate)
      ensures disposition == RevalidateTargets(host, plan, consumers, faults.revalidate)
    {
      calls := calls + [Call.Revalidate];
      disposition := RevalidateTargets(host, plan, consumers, faults.revalidate);
    }

    method MakeOverlay(plan: Plan) returns (ok: bool)
      requires !overlayCreated
      modifies this`host, this`overlayCreated
      ensures (Abstract(), ok) == AddOverlay(old(Abstract()), plan, faults.overlay)
    {
      var made := CreateOverlay(host.pool, plan, faults.overlay);
      host := host.(pool := made.0);
      if !made.1 {
        return false;
      }
      overlayCreated := true;
      ok := true;
    }

    method Prepare(plan: Plan, disposition: Disposition) returns (ok: bool)
      requires !overlayCreated && !baseCreated
      modifies this
      ensures (Abstract(), ok)
           == Prepared(Logged(old(Abstract()), PrepareStorage), plan, consumers, disposition, faults)
    {
      hide DispositionOf, CreateOverlay, ImportBase, CloneVolume;
      calls := calls + [PrepareStorage];
      if plan.source == Clone {
        var made := CloneVolume(host.pool, plan, faults.making);
        host := host.(pool := made.0);
        if !made.1 {
          return false;
        }
        overlayCreated := true;
        return true;
      }
      if disposition == Disposition.Prepare {
        var made := ImportBase(host.pool, plan, faults.making);
        host := host.(pool := made.0);
        if !made.1 {
          return false;
        }
        baseCreated := true;
      } else if faults.reuse || DispositionOf(host.pool, plan, consumers) != Some(ReuseProven) {
        return false;
      }
      ok := MakeOverlay(plan);
    }

    /** Inspects what is about to be owned and publishes it. */
    method Publish(plan: Plan, resources: seq<Managed>) returns (ok: bool)
      modifies this
      ensures Abstract()
           == Logged(old(Abstract()), PersistPreparing)
              .(host := Published(old(host), Manifest(plan.generationId, resources), faults.persist).0)
      ensures ok == Published(old(host), Manifest(plan.generationId, resources), faults.persist).1
    {
      calls := calls + [PersistPreparing];
      var published := Published(host, Manifest(plan.generationId, resources), faults.persist);
      host := published.0;
      ok := published.1;
    }

    method RollBack(plan: Plan) returns (ok: bool)
      modifies this
      ensures (Abstract(), ok) == RolledBack(old(Abstract()), plan, faults)
    {
      hide DeleteVolume;
      calls := calls + [Rollback];
      ok := true;
      if overlayCreated {
        var deleted := DeleteVolume(host.pool, plan.overlayName, faults.deleteOverlay);
        host := host.(pool := deleted.0);
        ok := deleted.1;
      }
      if baseCreated {
        var deleted := DeleteVolume(host.pool, plan.base.name, faults.deleteBase);
        host := host.(pool := deleted.0);
        ok := ok && deleted.1;
      }
    }

    method Finish(plan: Plan, manifest: Manifest) returns (result: Result<(), CreateError>)
      modifies this
      ensures (Abstract(), result) == Commit(old(Abstract()), manifest, plan, faults)
    {
      hide Observed, SameGeneration;
      calls := calls + [DefineDomain];
      if faults.define != FailsBefore {
        host := host.(domainDefined := true);
      }
      if faults.define != Works {
        return Failure(RecoveryRequired(DefineDomain));
      }
      calls := calls + [InspectDefined];
      var observed := Observed(host.pool, plan);
      if faults.inspectDefined || observed.None? {
        return Failure(RecoveryRequired(InspectDefined));
      }
      calls := calls + [Activate];
      var active := Activated(host, manifest, observed.value, faults.activate);
      host := active.0;
      result := if active.1 then Success(()) else Failure(RecoveryRequired(Activate));
    }
  }

  /** The whole transaction, as it drives its backend. */
  method ExecuteGenericCreate(backend: ManualGuestBackend, plan: Plan) returns (result: Result<(), CreateError>)
    requires backend.Abstract() == State(backend.host, false, false, [])
    modifies backend
    ensures (backend.Abstract(), result) == Execute(old(backend.host), plan, backend.consumers, backend.faults)
  {
    hide RevalidateTargets, Prepared, RolledBack, Commit, Observed, Published;
    if !Supported(plan) {
      return Failure(InvalidPlan);
    }
    var disposition := backend.Revalidate(plan);
    if disposition.None? {
      return Failure(BeforeOwnership(Call.Revalidate, false));
    }
    var failed: Call;
    var prepared := backend.Prepare(plan, disposition.value);
    if !prepared {
      failed := PrepareStorage;
    } else {
      backend.calls := backend.calls + [InspectPreparing];
      var observed := Observed(backend.host.pool, plan);
      if backend.faults.inspectPreparing || observed.None? {
        failed := InspectPreparing;
      } else {
        var published := backend.Publish(plan, observed.value);
        if published {
          result := backend.Finish(plan, Manifest(plan.generationId, observed.value));
          return;
        }
        failed := PersistPreparing;
      }
    }
    var undone := backend.RollBack(plan);
    result := Failure(BeforeOwnership(failed, !undone));
  }
}
