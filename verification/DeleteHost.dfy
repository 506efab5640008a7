/**
 The outside world of a deletion: libvirt domains, the storage pool and the durable index, reached
 one call at a time. Before each call other programs may replace the whole world, and each call may
 fail or kill the process, before or after its effect. The oracle fixes those choices, so that every
 quantification over oracles is a quantification over all such behaviours.
 */
module DeleteHost {
  import opened Results
  import opened DeleteState

  datatype VmState = Running | Shutoff | Paused | CrashedGuest | Unknown

  datatype Domain = Domain(name: string, uuid: string, state: VmState, persistent: bool, sources: seq<string>)

  datatype Volume = Volume(
    name: string,
    key: string,
    format: Option<string>,
    capacity: nat,
    backing: Option<string>)

  datatype World = World(domains: seq<Domain>, volumes: map<string, Volume>)

  datatype Fault = Works | FailsBefore | FailsAfter | CrashesBefore | CrashesAfter

  datatype Turn = Turn(interference: Option<World>, fault: Fault)

  type Oracle = nat -> Turn

  /** What a volume deletion has looked at, one after the other: the domains, the pool, the volume itself. */
  datatype Seen = Seen(domains: seq<Domain>, pool: map<string, Volume>, volume: Volume)

  /** An effect of Forge, with what its checks have seen and the world it acted on. */
  datatype Event =
    | DomainStopped(uuid: string, seen: World, at: World)
    | DomainUndefined(uuid: string, seen: World, at: World, durable: Option<GenerationIndex>)
    | VolumeRemoved(resource: ManagedResource, found: Seen, at: World, durable: Option<GenerationIndex>)
    | IndexWritten(before: GenerationIndex, after: GenerationIndex)

  datatype Host = Host(world: World, durable: Option<GenerationIndex>, turn: nat, history: seq<Event>)

  /** What a call gives back to its caller, unless the process died in it. */
  datatype Step<+T> = Returned(value: T) | Crashed

  datatype BackendError = BackendError

  datatype Answer = Answered | Unanswered | Dead

  /** The world as the next call finds it. */
  function Enter(h: Host, o: Oracle): Host {
    var t := o(h.turn);
    h.(turn := h.turn + 1, world := if t.interference.Some? then t.interference.value else h.world)
  }

  function Look(h: Host, o: Oracle): Answer {
    match o(h.turn).fault
    case Works => Answered
    case FailsBefore | FailsAfter => Unanswered
    case CrashesBefore | CrashesAfter => Dead
  }

  /** The next call's effect happens unless its fault strikes first. */
  predicate TakesEffect(h: Host, o: Oracle) {
    !o(h.turn).fault.FailsBefore? && !o(h.turn).fault.CrashesBefore?
  }

  /** The only way Forge changes anything: the event is carried out and recorded together. */
  function Commit(h: Host, e: Event): Host {
    var done := h.(history := h.history + [e]);
    match e
    case DomainStopped(uuid, _, _) =>
      done.(world := h.world.(domains := DestroyByUuid(h.world.domains, uuid)))
    case DomainUndefined(uuid, _, _, _) =>
      done.(world := h.world.(domains := UndefineByUuid(h.world.domains, uuid)))
    case VolumeRemoved(resource, _, _, _) =>
      done.(world := h.world.(volumes := h.world.volumes - {resource.path}))
    case IndexWritten(_, after) =>
      done.(durable := Some(after))
  }

  function Act(h: Host, o: Oracle, e: Event): Host {
    if TakesEffect(h, o) then Commit(Enter(h, o), e) else Enter(h, o)
  }

  // ---------------------------------------------------------------- exact domain identity

  datatype Identity = Identity(name: string, uuid: string)

  datatype Observation =
    | ExactPresent(identity: Identity, state: VmState, persistent: bool)
    | Absent
    | Conflict

  datatype DomainDeleteError = DomainConflict | UnsafeState | DomainBackend

  function WithName(domains: seq<Domain>, name: string): seq<Domain> {
    if domains == [] then []
    else (if domains[0].name == name then [domains[0]] else []) + WithName(domains[1..], name)
  }

  function WithUuid(domains: seq<Domain>, uuid: string): seq<Domain> {
    if domains == [] then []
    else (if domains[0].uuid == uuid then [domains[0]] else []) + WithUuid(domains[1..], uuid)
  }

  /** The listed part of a domain, on which the classification compares. */
  predicate SameSummary(a: Domain, b: Domain) {
    a.name == b.name && a.uuid == b.uuid && a.state == b.state && a.persistent == b.persistent
  }

  function ClassifyObservation(expected: Identity, domains: seq<Domain>): Observation {
    var names := WithName(domains, expected.name);
    var uuids := WithUuid(domains, expected.uuid);
    if |names| == 1 && |uuids| == 1 && SameSummary(names[0], uuids[0]) then
      ExactPresent(expected, names[0].state, names[0].persistent)
    else if names != [] || uuids != [] then
      Conflict
    else
      Absent
  }

  function AuthorizeUndefine(expected: Identity, observed: Observation): Result<(), DomainDeleteError> {
    match observed
    case ExactPresent(identity, state, persistent) =>
      if identity == expected && persistent && state == Shutoff then Success(())
      else if state != Shutoff then Failure(UnsafeState)
      else if !persistent then Failure(UnsafeState)
      else Failure(DomainConflict)
    case Absent => Failure(UnsafeState)
    case Conflict => Failure(DomainConflict)
  }

  function ObserveDomain(h: Host, o: Oracle, expected: Identity): (Host, Step<Result<Observation, BackendError>>) {
    var h1 := Enter(h, o);
    match Look(h, o)
    case Answered => (h1, Returned(Success(ClassifyObservation(expected, h1.world.domains))))
    case Unanswered => (h1, Returned(Failure(BackendError)))
    case Dead => (h1, Crashed)
  }

  /** Undefining a shutoff domain removes it; undefining an active one leaves it transient. */
  function UndefineByUuid(domains: seq<Domain>, uuid: string): seq<Domain> {
    if domains == [] then []
    else
      (if domains[0].uuid != uuid then [domains[0]]
       else if domains[0].state == Shutoff then []
       else [domains[0].(persistent := false)])
      + UndefineByUuid(domains[1..], uuid)
  }

  function UndefineDomainExact(h: Host, o: Oracle, expected: Identity): (Host, Step<Result<(), DomainDeleteError>>) {
    var (h1, observed) := ObserveDomain(h, o, expected);
    match observed
    case Crashed => (h1, Crashed)
    case Returned(Failure(_)) => (h1, Returned(Failure(DomainBackend)))
    case Returned(Success(observation)) =>
      var authorized := AuthorizeUndefine(expected, observation);
      if authorized.Failure? then (h1, Returned(authorized)) else UndefineHandle(h1, o, expected)
  }

  /** Second half: look the domain up by UUID, re-authorize its own identity, undefine, re-observe. */
  function UndefineHandle(h: Host, o: Oracle, expected: Identity): (Host, Step<Result<(), DomainDeleteError>>) {
    var h1 := Enter(h, o);
    match Look(h, o)
    case Dead => (h1, Crashed)
    case Unanswered => (h1, Returned(Failure(DomainBackend)))
    case Answered =>
      var found := WithUuid(h1.world.domains, expected.uuid);
      if found == [] then
        (h1, Returned(Failure(DomainBackend)))
      else
        var immediate := ExactPresent(Identity(found[0].name, found[0].uuid), found[0].state, found[0].persistent);
        var authorized := AuthorizeUndefine(expected, immediate);
        if authorized.Failure? then (h1, Returned(authorized)) else UndefineNow(h1, o, expected)
  }

  function UndefineNow(h: Host, o: Oracle, expected: Identity): (Host, Step<Result<(), DomainDeleteError>>) {
    var entered := Enter(h, o);
    if WithUuid(entered.world.domains, expected.uuid) == [] then
      if Look(h, o).Dead? then (entered, Crashed) else (entered, Returned(Failure(DomainBackend)))
    else
      var h1 := Act(h, o, DomainUndefined(expected.uuid, h.world, entered.world, entered.durable));
      match Look(h, o)
      case Dead => (h1, Crashed)
      case Unanswered => (h1, Returned(Failure(DomainBackend)))
      case Answered =>
        var (h2, observed) := ObserveDomain(h1, o, expected);
        match observed
        case Crashed => (h2, Crashed)
        case Returned(Failure(_)) => (h2, Returned(Failure(DomainBackend)))
        case Returned(Success(Absent)) => (h2, Returned(Success(())))
        case Returned(Success(ExactPresent(_, _, _))) => (h2, Returned(Failure(UnsafeState)))
        case Returned(Success(Conflict)) => (h2, Returned(Failure(DomainConflict)))
  }

  // ---------------------------------------------------------------- force-stop

  /** Destroying a guest shuts a persistent domain off and makes a transient one disappear. */
  function DestroyByUuid(domains: seq<Domain>, uuid: string): seq<Domain> {
    if domains == [] then []
    else
      (if domains[0].uuid != uuid then [domains[0]]
       else if domains[0].persistent then [domains[0].(state := Shutoff)]
       else [])
      + DestroyByUuid(domains[1..], uuid)
  }

  /** Force-stop of the domain bound by instance name, refused unless it has the planned UUID and runs. */
  function ForceStop(h: Host, o: Oracle, instance: string, uuid: string): (Host, Step<Result<(), BackendError>>) {
    var h1 := Enter(h, o);
    match Look(h, o)
    case Dead => (h1, Crashed)
    case Unanswered => (h1, Returned(Failure(BackendError)))
    case Answered =>
      var found := WithName(h1.world.domains, instance);
      if found == [] || found[0].uuid != uuid || found[0].state != Running then
        (h1, Returned(Failure(BackendError)))
      else
        DestroyAndWait(h1, o, uuid)
  }

  function DestroyAndWait(h: Host, o: Oracle, uuid: string): (Host, Step<Result<(), BackendError>>) {
    var entered := Enter(h, o);
    var h1 := Act(h, o, DomainStopped(uuid, h.world, entered.world));
    match Look(h, o)
    case Dead => (h1, Crashed)
    case Unanswered => (h1, Returned(Failure(BackendError)))
    case Answered =>
      var h2 := Enter(h1, o);
      match Look(h1, o)
      case Dead => (h2, Crashed)
      case Unanswered => (h2, Returned(Failure(BackendError)))
      case Answered =>
        var found := WithUuid(h2.world.domains, uuid);
        if found != [] && found[0].state == Shutoff then (h2, Returned(Success(())))
        else (h2, Returned(Failure(BackendError)))
  }

  // ---------------------------------------------------------------- exact volume identity

  datatype VolumeDeleteError = IdentityMismatch | Referenced | SharedBaseForbidden | VolumeBackend

  datatype AbsenceError = Present | AbsenceBackend

  predicate ReferencedByDomain(domains: seq<Domain>, path: string) {
    exists i :: 0 <= i < |domains| && path in domains[i].sources
  }

  predicate BacksVolume(volumes: map<string, Volume>, path: string) {
    exists p :: p in volumes && volumes[p].backing == Some(path)
  }

  predicate ExactVolume(volume: Volume, expected: ManagedResource) {
    && volume.name == expected.volumeName
    && volume.key == expected.volumeKey
    && volume.capacity == expected.capacityBytes
    && volume.format == Some(expected.format)
    && volume.backing == expected.backingPath
  }

  function DeleteManagedVolumeExact(h: Host, o: Oracle, expected: ManagedResource)
    : (Host, Step<Result<(), VolumeDeleteError>>)
  {
    if expected.role == SharedBase then
      (h, Returned(Failure(SharedBaseForbidden)))
    else
      var h1 := Enter(h, o);
      match Look(h, o)
      case Dead => (h1, Crashed)
      case Unanswered => (h1, Returned(Failure(VolumeBackend)))
      case Answered =>
        if ReferencedByDomain(h1.world.domains, expected.path) then
          (h1, Returned(Failure(Referenced)))
        else
          DeleteUnreferenced(h1, o, expected)
  }

  /** Once the domains have been looked at: looks at the pool. */
  function DeleteUnreferenced(h: Host, o: Oracle, expected: ManagedResource)
    : (Host, Step<Result<(), VolumeDeleteError>>)
  {
    var h1 := Enter(h, o);
    match Look(h, o)
    case Dead => (h1, Crashed)
    case Unanswered => (h1, Returned(Failure(VolumeBackend)))
    case Answered =>
      if BacksVolume(h1.world.volumes, expected.path) then
        (h1, Returned(Failure(Referenced)))
      else
        DeleteUnbacked(h1, o, expected, h.world.domains)
  }

  /** Once the pool has been looked at too: looks the volume up and compares its identity. */
  function DeleteUnbacked(h: Host, o: Oracle, expected: ManagedResource, domains: seq<Domain>)
    : (Host, Step<Result<(), VolumeDeleteError>>)
  {
    var h1 := Enter(h, o);
    match Look(h, o)
    case Dead => (h1, Crashed)
    case Unanswered => (h1, Returned(Failure(VolumeBackend)))
    case Answered =>
      if expected.path !in h1.world.volumes then
        (h1, Returned(Failure(VolumeBackend)))
      else if !ExactVolume(h1.world.volumes[expected.path], expected) then
        (h1, Returned(Failure(IdentityMismatch)))
      else
        RemoveVolume(h1, o, expected, Seen(domains, h.world.volumes, h1.world.volumes[expected.path]))
  }

  function RemoveVolume(h: Host, o: Oracle, expected: ManagedResource, found: Seen)
    : (Host, Step<Result<(), VolumeDeleteError>>)
  {
    var entered := Enter(h, o);
    if expected.path !in entered.world.volumes then
      if Look(h, o).Dead? then (entered, Crashed) else (entered, Returned(Failure(VolumeBackend)))
    else
      var h1 := Act(h, o, VolumeRemoved(expected, found, entered.world, entered.durable));
      match Look(h, o)
      case Answered => (h1, Returned(Success(())))
      case Unanswered => (h1, Returned(Failure(VolumeBackend)))
      case Dead => (h1, Crashed)
  }

  function VerifyManagedVolumeAbsent(h: Host, o: Oracle, expected: ManagedResource)
    : (Host, Step<Result<(), AbsenceError>>)
  {
    var h1 := Enter(h, o);
    match Look(h, o)
    case Dead => (h1, Crashed)
    case Unanswered => (h1, Returned(Failure(AbsenceBackend)))
    case Answered =>
      if expected.path in h1.world.volumes then (h1, Returned(Failure(Present))) else (h1, Returned(Success(())))
  }

  // ---------------------------------------------------------------- the durable index

  /** Compare-and-replace of the durable index; the write itself is one atomic rename. */
  function PersistDeleteIndex(h: Host, o: Oracle, expected: GenerationIndex, next: GenerationIndex)
    : (Host, Step<Result<(), BackendError>>)
  {
    var entered := Enter(h, o);
    if h.durable != Some(expected) || !ValidIndex(expected) || !ValidIndex(next) then
      if Look(h, o).Dead? then (entered, Crashed) else (entered, Returned(Failure(BackendError)))
    else
      var h1 := Act(h, o, IndexWritten(expected, next));
      match Look(h, o)
      case Answered => (h1, Returned(Success(())))
      case Unanswered => (h1, Returned(Failure(BackendError)))
      case Dead => (h1, Crashed)
  }
}
