/**
 How an execution of a deletion ends, call by call and for every failure, crash and interference: each
 call is a check, with what its answer must not show, and the first check that is not passed decides.
 */
module DeleteOutcomes {
  import opened Results
  import opened DeleteState
  import opened DeleteHost
  import opened DeleteExecution
  import opened DomainIdentity

  /** A call that is made at this point, and whether its answer refuses the deletion or only sets it back. */
  datatype Check = Check(at: Host, refuses: bool, setsBack: bool)

  /** The first call that dies, is not answered, or answers with an obstacle. */
  function Verdict(o: Oracle, checks: seq<Check>): Outcome<()> {
    if checks == [] then Done(())
    else
      match Look(checks[0].at, o)
      case Dead => Died
      case Unanswered => Recoverable
      case Answered =>
        if checks[0].refuses then Refused
        else if checks[0].setsBack then Recoverable
        else Verdict(o, checks[1..])
  }

  lemma {:induction false} VerdictInTurn(o: Oracle, a: seq<Check>, b: seq<Check>)
    ensures Verdict(o, a + b) == if Verdict(o, a).Done? then Verdict(o, b) else Verdict(o, a)
  {
    if a == [] {
      assert a + b == b;
    } else {
      assert (a + b)[0] == a[0] && (a + b)[1..] == a[1..] + b;
      VerdictInTurn(o, a[1..], b);
    }
  }

  /** How two outcomes compare that differ in what they carry. */
  predicate SameEnd<A, B>(a: Outcome<A>, b: Outcome<B>) {
    (a.Done? <==> b.Done?) && (a.Refused? <==> b.Refused?) && (a.Recoverable? <==> b.Recoverable?)
  }

  // ---------------------------------------------------------------- what a listing shows

  /** One entry of the listing is the exact domain, and it is like this. */
  predicate Shows(domains: seq<Domain>, id: Identity, state: VmState, persistent: bool) {
    exists i :: 0 <= i < |domains| && OnlyAt(domains, id, i)
             && domains[i].state == state && domains[i].persistent == persistent
  }

  predicate ShowsState(domains: seq<Domain>, id: Identity, state: VmState) {
    Shows(domains, id, state, true) || Shows(domains, id, state, false)
  }

  /** Some entry has the name or the UUID, and none is the exact domain. */
  predicate Confused(domains: seq<Domain>, id: Identity) {
    !Unmentioned(domains, id) && forall i :: 0 <= i < |domains| ==> !OnlyAt(domains, id, i)
  }

  /** The domains that the call at this point finds. */
  function Listed(h: Host, o: Oracle): seq<Domain> {
    Enter(h, o).world.domains
  }

  lemma ClassifiedAs(domains: seq<Domain>, id: Identity)
    ensures var observed := ClassifyObservation(id, domains);
            && (forall state, persistent ::
                  Shows(domains, id, state, persistent) <==> observed == ExactPresent(id, state, persistent))
            && (Unmentioned(domains, id) <==> observed == Absent)
            && (Confused(domains, id) <==> observed == Conflict)
  {
    hide WithName, WithUuid;
    MatchIff(domains, id);
    NoneFound(domains, id);
  }

  predicate FirstNamed(domains: seq<Domain>, name: string, i: int) {
    0 <= i < |domains| && domains[i].name == name && forall j :: 0 <= j < i ==> domains[j].name != name
  }

  predicate FirstIdentified(domains: seq<Domain>, uuid: string, i: int) {
    0 <= i < |domains| && domains[i].uuid == uuid && forall j :: 0 <= j < i ==> domains[j].uuid != uuid
  }

  predicate HasUuid(domains: seq<Domain>, uuid: string) {
    exists i :: 0 <= i < |domains| && domains[i].uuid == uuid
  }

  lemma {:induction false} FoundByName(domains: seq<Domain>, name: string)
    ensures forall i :: FirstNamed(domains, name, i) ==>
              WithName(domains, name) != [] && WithName(domains, name)[0] == domains[i]
    ensures WithName(domains, name) != [] ==> exists i :: FirstNamed(domains, name, i)
  {
    if domains != [] {
      var rest := domains[1..];
      FoundByName(rest, name);
      assert forall j :: 0 < j < |domains| ==> domains[j] == rest[j - 1];
      if domains[0].name == name {
        assert FirstNamed(domains, name, 0);
      } else {
        assert [] + WithName(rest, name) == WithName(rest, name);
        forall i | FirstNamed(domains, name, i)
          ensures WithName(domains, name) != [] && WithName(domains, name)[0] == domains[i] {
          assert FirstNamed(rest, name, i - 1);
        }
        if WithName(domains, name) != [] {
          var i :| FirstNamed(rest, name, i);
          assert FirstNamed(domains, name, i + 1);
        }
      }
    }
  }

  lemma {:induction false} FoundByUuid(domains: seq<Domain>, uuid: string)
    ensures forall i :: FirstIdentified(domains, uuid, i) ==>
              WithUuid(domains, uuid) != [] && WithUuid(domains, uuid)[0] == domains[i]
    ensures WithUuid(domains, uuid) != [] ==> exists i :: FirstIdentified(domains, uuid, i)
    ensures WithUuid(domains, uuid) != [] <==> HasUuid(domains, uuid)
  {
    if domains != [] {
      var rest := domains[1..];
      FoundByUuid(rest, uuid);
      assert forall j :: 0 < j < |domains| ==> domains[j] == rest[j - 1];
      if domains[0].uuid == uuid {
        assert FirstIdentified(domains, uuid, 0);
      } else {
        assert [] + WithUuid(rest, uuid) == WithUuid(rest, uuid);
        forall i | FirstIdentified(domains, uuid, i)
          ensures WithUuid(domains, uuid) != [] && WithUuid(domains, uuid)[0] == domains[i] {
          assert FirstIdentified(rest, uuid, i - 1);
        }
        if WithUuid(domains, uuid) != [] {
          var i :| FirstIdentified(rest, uuid, i);
          assert FirstIdentified(domains, uuid, i + 1);
        }
      }
    }
  }

  // ---------------------------------------------------------------- stopping

  /** The first domain of the bound name is the planned one, and runs. */
  predicate BoundRuns(domains: seq<Domain>, instance: string, uuid: string) {
    exists i :: && 0 <= i < |domains| && FirstNamed(domains, instance, i)
                && domains[i].uuid == uuid && domains[i].state == Running
  }

  predicate HasStopped(domains: seq<Domain>, uuid: string) {
    exists i :: 0 <= i < |domains| && FirstIdentified(domains, uuid, i) && domains[i].state == Shutoff
  }

  /** The four points of a force-stop: the lookup, the destroying call, the poll, and the new listing. */
  function StopPoint(h: Host, o: Oracle, uuid: string, k: nat): Host {
    var destroy := Enter(h, o);
    var poll := Act(destroy, o, DomainStopped(uuid, destroy.world, Enter(destroy, o).world));
    match k
    case 0 => h
    case 1 => destroy
    case 2 => poll
    case 3 => Enter(poll, o)
    case _ => Enter(Enter(poll, o), o)
  }

  function StopCalls(h: Host, o: Oracle, plan: DeletePlan, a: Attempt): seq<Check> {
    var uuid, id := plan.domainUuid, IdentityOf(plan);
    var lookup, poll, again := StopPoint(h, o, uuid, 0), StopPoint(h, o, uuid, 2), StopPoint(h, o, uuid, 3);
    [Check(lookup, false, !BoundRuns(Listed(lookup, o), a.instance, uuid)),
     Check(StopPoint(h, o, uuid, 1), false, false),
     Check(poll, false, !HasStopped(Listed(poll, o), uuid)),
     Check(again, Confused(Listed(again, o), id), !ShowsState(Listed(again, o), id, Shutoff))]
  }

  lemma VerdictOfOne(o: Oracle, c: Check)
    ensures Verdict(o, [c])
         == match Look(c.at, o)
            case Dead => Died
            case Unanswered => Recoverable
            case Answered => if c.refuses then Refused else if c.setsBack then Recoverable else Done(())
  {
    assert [c][1..] == [];
    assert Verdict(o, []) == Done(());
  }

  /** The verdict of a step that ends in a result or a crash, where a failure is a setback. */
  predicate EndsAs<A, E>(step: Step<Result<A, E>>, verdict: Outcome<()>) {
    match step
    case Crashed => verdict == Died
    case Returned(Success(_)) => verdict.Done?
    case Returned(Failure(_)) => verdict == Recoverable
  }

  lemma ForceStopEnds(h: Host, o: Oracle, instance: string, uuid: string, lookup: Check, destroy: Check, poll: Check)
    requires lookup == Check(h, false, !BoundRuns(Listed(h, o), instance, uuid))
    requires destroy == Check(StopPoint(h, o, uuid, 1), false, false)
    requires poll == Check(StopPoint(h, o, uuid, 2), false, !HasStopped(Listed(StopPoint(h, o, uuid, 2), o), uuid))
    ensures var (end, stopped) := ForceStop(h, o, instance, uuid);
            && EndsAs(stopped, Verdict(o, [lookup, destroy, poll]))
            && (stopped.Returned? && stopped.value.Success? ==> end == StopPoint(h, o, uuid, 3))
  {
    FoundByName(Listed(h, o), instance);
    FoundByUuid(Listed(StopPoint(h, o, uuid, 2), o), uuid);
    VerdictInTurn(o, [lookup], [destroy, poll]);
    VerdictInTurn(o, [destroy], [poll]);
    assert [lookup] + [destroy, poll] == [lookup, destroy, poll] && [destroy] + [poll] == [destroy, poll];
    VerdictOfOne(o, lookup);
    VerdictOfOne(o, destroy);
    VerdictOfOne(o, poll);
    hide Verdict, WithName, WithUuid, FirstNamed, FirstIdentified;
  }

  lemma StopEnds(h: Host, o: Oracle, plan: DeletePlan, a: Attempt)
    requires a.force && a.confirmed
    ensures StopIfRunning(h, o, plan, Running, a).1 == Verdict(o, StopCalls(h, o, plan, a))
    ensures StopIfRunning(h, o, plan, Running, a).1.Done? ==>
              StopIfRunning(h, o, plan, Running, a).0 == StopPoint(h, o, plan.domainUuid, 4)
  {
    var calls := StopCalls(h, o, plan, a);
    var again := StopPoint(h, o, plan.domainUuid, 3);
    ForceStopEnds(h, o, a.instance, plan.domainUuid, calls[0], calls[1], calls[2]);
    ClassifiedAs(Listed(again, o), IdentityOf(plan));
    VerdictInTurn(o, [calls[0], calls[1], calls[2]], [calls[3]]);
    assert calls == [calls[0], calls[1], calls[2]] + [calls[3]];
    VerdictOfOne(o, calls[3]);
    hide Verdict, ForceStop, ClassifyObservation, Confused, Shows, BoundRuns, HasStopped;
  }

  // ---------------------------------------------------------------- undefining

  /** The first domain of the UUID is shut off and persistent. */
  predicate HandleIsOff(domains: seq<Domain>, uuid: string) {
    exists i :: && 0 <= i < |domains| && FirstIdentified(domains, uuid, i)
                && domains[i].persistent && domains[i].state == Shutoff
  }

  predicate HandleIsNamed(domains: seq<Domain>, id: Identity) {
    exists i :: 0 <= i < |domains| && FirstIdentified(domains, id.uuid, i) && domains[i].name == id.name
  }

  /** The four points of an undefine: the listing, the lookup, the undefining call, and the listing after it. */
  function UndefinePoint(h: Host, o: Oracle, uuid: string, k: nat): Host {
    var call := Enter(Enter(h, o), o);
    var after := if HasUuid(Listed(call, o), uuid)
                 then Act(call, o, DomainUndefined(uuid, call.world, Enter(call, o).world, Enter(call, o).durable))
                 else Enter(call, o);
    match k
    case 0 => h
    case 1 => Enter(h, o)
    case 2 => call
    case 3 => after
    case _ => Enter(after, o)
  }

  function UndefineCalls(h: Host, o: Oracle, id: Identity): seq<Check> {
    var lookup, call := UndefinePoint(h, o, id.uuid, 1), UndefinePoint(h, o, id.uuid, 2);
    var after, handles := UndefinePoint(h, o, id.uuid, 3), Listed(lookup, o);
    [Check(h, !Shows(Listed(h, o), id, Shutoff, true), false),
     Check(lookup, !(HandleIsOff(handles, id.uuid) && HandleIsNamed(handles, id)) && HasUuid(handles, id.uuid),
           !HasUuid(handles, id.uuid)),
     Check(call, false, !HasUuid(Listed(call, o), id.uuid)),
     Check(after, !Unmentioned(Listed(after, o), id), false)]
  }

  /** Which refusal it is: a conflict of identities, or the exact domain in a state that is not safe. */
  function UndefineRefusal(h: Host, o: Oracle, id: Identity): DomainDeleteError {
    var calls := UndefineCalls(h, o, id);
    if Verdict(o, [calls[0]]).Refused? then
      (if Confused(Listed(h, o), id) then DomainConflict else UnsafeState)
    else if Verdict(o, [calls[1]]).Refused? then
      (if HandleIsOff(Listed(calls[1].at, o), id.uuid) then DomainConflict else UnsafeState)
    else if Confused(Listed(calls[3].at, o), id) then DomainConflict
    else UnsafeState
  }

  predicate UndefineEndsAs(result: Step<Result<(), DomainDeleteError>>, verdict: Outcome<()>,
                           refusal: DomainDeleteError)
  {
    match verdict
    case Died => result == Crashed
    case Done(_) => result == Returned(Success(()))
    case Recoverable => result == Returned(Failure(DomainBackend))
    case Refused => result == Returned(Failure(refusal))
  }

  lemma UndefineNowEnds(h: Host, o: Oracle, id: Identity, call: Check, last: Check)
    requires call == UndefineCalls(h, o, id)[2] && last == UndefineCalls(h, o, id)[3]
    ensures var (end, result) := UndefineNow(UndefinePoint(h, o, id.uuid, 2), o, id);
            && UndefineEndsAs(result, Verdict(o, [call, last]),
                              if Confused(Listed(last.at, o), id) then DomainConflict else UnsafeState)
            && (result == Returned(Success(())) ==> end == UndefinePoint(h, o, id.uuid, 4))
  {
    FoundByUuid(Listed(call.at, o), id.uuid);
    ClassifiedAs(Listed(last.at, o), id);
    VerdictInTurn(o, [call], [last]);
    assert [call] + [last] == [call, last];
    VerdictOfOne(o, call);
    VerdictOfOne(o, last);
    hide Verdict, WithUuid, ClassifyObservation, Confused, Shows, HasUuid, Unmentioned;
  }

  lemma UndefineHandleEnds(h: Host, o: Oracle, id: Identity, calls: seq<Check>)
    requires calls == UndefineCalls(h, o, id)
    ensures var (end, result) := UndefineHandle(UndefinePoint(h, o, id.uuid, 1), o, id);
            && UndefineEndsAs(result, Verdict(o, calls[1..]),
                              if Verdict(o, [calls[1]]).Refused? then
                                (if HandleIsOff(Listed(calls[1].at, o), id.uuid) then DomainConflict else UnsafeState)
                              else if Confused(Listed(calls[3].at, o), id) then DomainConflict
                              else UnsafeState)
            && (result == Returned(Success(())) ==> end == UndefinePoint(h, o, id.uuid, 4))
  {
    var handles := Listed(calls[1].at, o);
    FoundByUuid(handles, id.uuid);
    VerdictInTurn(o, [calls[1]], [calls[2], calls[3]]);
    assert calls[1..] == [calls[1]] + [calls[2], calls[3]];
    VerdictOfOne(o, calls[1]);
    UndefineNowEnds(h, o, id, calls[2], calls[3]);
    hide Verdict, WithUuid, Confused, Unmentioned, UndefineNow, Shows;
  }

  /** The exact undefine, with every error it can have. */
  lemma UndefineEnds(h: Host, o: Oracle, id: Identity)
    ensures var (end, result) := UndefineDomainExact(h, o, id);
            && UndefineEndsAs(result, Verdict(o, UndefineCalls(h, o, id)), UndefineRefusal(h, o, id))
            && (result == Returned(Success(())) ==> end == UndefinePoint(h, o, id.uuid, 4))
  {
    var calls := UndefineCalls(h, o, id);
    ClassifiedAs(Listed(h, o), id);
    VerdictInTurn(o, [calls[0]], calls[1..]);
    assert calls == [calls[0]] + calls[1..];
    VerdictOfOne(o, calls[0]);
    UndefineHandleEnds(h, o, id, calls);
    hide Verdict, ClassifyObservation, Confused, Shows, Unmentioned, UndefineHandle, HandleIsOff, HandleIsNamed;
  }

  // ---------------------------------------------------------------- the domain step

  /** The compare-and-replace of the index, set back if the index is not the expected one. */
  function RecordCall(h: Host, expected: GenerationIndex): Check {
    Check(h, false, h.durable != Some(expected))
  }

  lemma PublishEnds(h: Host, o: Oracle, current: GenerationIndex, next: GenerationIndex)
    requires ValidIndex(current) && ValidIndex(next)
    ensures SameEnd(Publish(h, o, current, Success(next)).1, Verdict(o, [RecordCall(h, current)]))
    ensures Publish(h, o, current, Success(next)).1.Done? ==>
              && Publish(h, o, current, Success(next)).1.value == next
              && Publish(h, o, current, Success(next)).0 == Act(h, o, IndexWritten(current, next))
  {
    hide ValidIndex;
    VerdictOfOne(o, RecordCall(h, current));
  }

  /**
   The first listing of a pending domain step. It must not be confused, nor show the exact domain in a
   state other than shut off or running, nor running without force; a running one must be confirmed.
   */
  function FirstLook(h: Host, o: Oracle, plan: DeletePlan, a: Attempt): Check {
    var id, seen := IdentityOf(plan), Listed(h, o);
    var runs, off := ShowsState(seen, id, Running), ShowsState(seen, id, Shutoff);
    Check(h, !Unmentioned(seen, id) && !off && !(runs && a.force), runs && !a.confirmed)
  }

  /**
   The calls of a pending domain step: the first listing; then a running domain is stopped, and one that is
   there is undefined, before the step is recorded.
   */
  function DomainCalls(h: Host, o: Oracle, current: GenerationIndex, plan: DeletePlan, a: Attempt): seq<Check> {
    var id, seen, uuid := IdentityOf(plan), Listed(h, o), plan.domainUuid;
    var runs := ShowsState(seen, id, Running);
    var ready := if runs then StopPoint(Enter(h, o), o, uuid, 4) else Enter(h, o);
    [FirstLook(h, o, plan, a)]
    + (if runs then StopCalls(Enter(h, o), o, plan, a) else [])
    + (if Unmentioned(seen, id) then [RecordCall(ready, current)]
       else UndefineCalls(ready, o, id) + [RecordCall(UndefinePoint(ready, o, uuid, 4), current)])
  }

  /** The point at which the domain step is recorded. */
  function DomainRecorded(h: Host, o: Oracle, plan: DeletePlan): Host {
    var id, seen := IdentityOf(plan), Listed(h, o);
    var ready := if ShowsState(seen, id, Running) then StopPoint(Enter(h, o), o, plan.domainUuid, 4) else Enter(h, o);
    if Unmentioned(seen, id) then ready else UndefinePoint(ready, o, plan.domainUuid, 4)
  }

  lemma VerdictInThree(o: Oracle, a: seq<Check>, b: seq<Check>, c: seq<Check>)
    ensures Verdict(o, a + b + c)
         == if !Verdict(o, a).Done? then Verdict(o, a)
            else if !Verdict(o, b).Done? then Verdict(o, b)
            else Verdict(o, c)
  {
    VerdictInTurn(o, a + b, c);
    VerdictInTurn(o, a, b);
  }

  lemma NoCheck(o: Oracle)
    ensures Verdict(o, []) == Done(())
  {
  }

  /** What a listing shows of an identity is one of four things. */
  lemma SeenOnce(seen: seq<Domain>, id: Identity)
    ensures var observed := ClassifyObservation(id, seen);
            && (observed == Absent <==> Unmentioned(seen, id))
            && (observed == Conflict <==> Confused(seen, id))
            && (observed.ExactPresent? ==>
                  && observed.identity == id
                  && (ShowsState(seen, id, Running) <==> observed.state == Running)
                  && (ShowsState(seen, id, Shutoff) <==> observed.state == Shutoff))
            && (!observed.ExactPresent? ==> !ShowsState(seen, id, Running) && !ShowsState(seen, id, Shutoff))
  {
    hide WithName, WithUuid;
    MatchIff(seen, id);
    ClassifiedAs(seen, id);
    hide Shows, ClassifyObservation;
    var observed := ClassifyObservation(id, seen);
    if observed.ExactPresent? {
      ExactIsOfIdentity(seen, id);
      assert Shows(seen, id, observed.state, observed.persistent);
    }
  }

  lemma ExactIsOfIdentity(seen: seq<Domain>, id: Identity)
    ensures ClassifyObservation(id, seen).ExactPresent? ==> ClassifyObservation(id, seen).identity == id
  {
    hide WithName, WithUuid;
  }

  lemma UndefineOutcome(h: Host, o: Oracle, plan: DeletePlan)
    ensures var (end, outcome) := UndefineDomain(h, o, plan);
            && SameEnd(outcome, Verdict(o, UndefineCalls(h, o, IdentityOf(plan))))
            && (outcome.Done? ==> end == UndefinePoint(h, o, plan.domainUuid, 4))
  {
    hide UndefineDomainExact, UndefineCalls, UndefinePoint, Verdict, Confused, HandleIsOff, Listed;
    UndefineEnds(h, o, IdentityOf(plan));
  }

  /** An undefine and its record, one after the other. */
  lemma UndefineAndRecordEnds(h: Host, o: Oracle, current: GenerationIndex, plan: DeletePlan)
    requires Coherent(current, plan) && ProgressOf(current).domain == UndefinePending
    ensures var id, uuid := IdentityOf(plan), plan.domainUuid;
            var record := UndefinePoint(h, o, uuid, 4);
            var result := UndefineAndRecord(h, o, current, plan);
            && SameEnd(result.1, Verdict(o, UndefineCalls(h, o, id) + [RecordCall(record, current)]))
            && (result.1.Done? ==>
                  && RecordDomainAbsent(current, plan) == Success(result.1.value)
                  && result.0 == Act(record, o, IndexWritten(current, result.1.value)))
  {
    var id := IdentityOf(plan);
    var record := UndefinePoint(h, o, plan.domainUuid, 4);
    RecordDomainIsCheckpoint(current, plan);
    hide UndefineDomainExact, UndefineCalls, UndefinePoint, Verdict, Publish, RecordDomainAbsent, ValidIndex,
         RecordCall, Checkpoint, UndefineDomain;
    UndefineOutcome(h, o, plan);
    PublishEnds(record, o, current, RecordDomainAbsent(current, plan).value);
    VerdictInTurn(o, UndefineCalls(h, o, id), [RecordCall(record, current)]);
  }

  /** The first listing of the domain step, and what follows it when it lets the step go on. */
  lemma LookDecides(h: Host, o: Oracle, current: GenerationIndex, plan: DeletePlan, a: Attempt)
    ensures var first := FirstLook(h, o, plan, a);
            var id, ready := IdentityOf(plan), Enter(h, o);
            if !Verdict(o, [first]).Done? then
              && SameEnd(DomainPhase(h, o, current, plan, a).1, Verdict(o, [first]))
              && !DomainPhase(h, o, current, plan, a).1.Done?
            else if Unmentioned(Listed(h, o), id) then
              DomainPhase(h, o, current, plan, a) == Publish(ready, o, current, RecordDomainAbsent(current, plan))
            else if ShowsState(Listed(h, o), id, Running) then
              && a.force && a.confirmed
              && var (stopped, outcome) := StopIfRunning(ready, o, plan, Running, a);
                 if outcome.Done? then
                   DomainPhase(h, o, current, plan, a) == UndefineAndRecord(stopped, o, current, plan)
                 else SameEnd(DomainPhase(h, o, current, plan, a).1, outcome)
            else DomainPhase(h, o, current, plan, a) == UndefineAndRecord(ready, o, current, plan)
  {
    hide Shows, Confused, Unmentioned, ShowsState, StopPoint, UndefinePoint, StopCalls, UndefineCalls, RecordCall,
         RecordDomainAbsent, Publish, UndefineAndRecord, Verdict, ForceStop, ClassifyObservation;
    var seen, id := Listed(h, o), IdentityOf(plan);
    SeenOnce(seen, id);
    var first := FirstLook(h, o, plan, a);
    VerdictOfOne(o, first);
  }

  /** The verdict on the calls of a domain step, part by part. */
  lemma DomainCallsInTurn(h: Host, o: Oracle, current: GenerationIndex, plan: DeletePlan, a: Attempt)
    ensures var calls, id := DomainCalls(h, o, current, plan, a), IdentityOf(plan);
            var seen, ready := Listed(h, o), Enter(h, o);
            var runs, uuid := ShowsState(seen, id, Running), plan.domainUuid;
            var stop := StopCalls(ready, o, plan, a);
            var off := if runs then StopPoint(ready, o, uuid, 4) else ready;
            var rest := if Unmentioned(seen, id) then [RecordCall(off, current)]
                        else UndefineCalls(off, o, id) + [RecordCall(UndefinePoint(off, o, uuid, 4), current)];
            Verdict(o, calls)
            == if !Verdict(o, [calls[0]]).Done? then Verdict(o, [calls[0]])
               else if runs && !Verdict(o, stop).Done? then Verdict(o, stop)
               else Verdict(o, rest)
  {
    hide Shows, Confused, Unmentioned, ShowsState, StopPoint, UndefinePoint, StopCalls, UndefineCalls, RecordCall,
         Verdict;
    var id, seen, ready := IdentityOf(plan), Listed(h, o), Enter(h, o);
    var calls := DomainCalls(h, o, current, plan, a);
    NoCheck(o);
    var runs := ShowsState(seen, id, Running);
    var stop := if runs then StopCalls(ready, o, plan, a) else [];
    var off := if runs then StopPoint(ready, o, plan.domainUuid, 4) else ready;
    var rest := if Unmentioned(seen, id) then [RecordCall(off, current)]
                else UndefineCalls(off, o, id) + [RecordCall(UndefinePoint(off, o, plan.domainUuid, 4), current)];
    assert calls == [calls[0]] + stop + rest;
    VerdictInThree(o, [calls[0]], stop, rest);
  }

  /** How a pending domain step ends, whatever fails and whoever interferes. */
  lemma DomainStepEnds(h: Host, o: Oracle, current: GenerationIndex, plan: DeletePlan, a: Attempt)
    requires Coherent(current, plan) && ProgressOf(current).domain == UndefinePending
    ensures var result := DomainPhase(h, o, current, plan, a);
            && SameEnd(result.1, Verdict(o, DomainCalls(h, o, current, plan, a)))
            && (result.1.Done? ==>
                  && RecordDomainAbsent(current, plan) == Success(result.1.value)
                  && result.0 == Act(DomainRecorded(h, o, plan), o, IndexWritten(current, result.1.value)))
  {
    var id, seen, ready := IdentityOf(plan), Listed(h, o), Enter(h, o);
    RecordDomainIsCheckpoint(current, plan);
    SeenOnce(seen, id);
    hide ClassifyObservation, Shows, Confused, Unmentioned, ShowsState, StopPoint, UndefinePoint, StopCalls,
         UndefineCalls, RecordCall, RecordDomainAbsent, ValidIndex, Publish, UndefineAndRecord, Verdict, DomainPhase,
         DomainCalls, StopIfRunning;
    LookDecides(h, o, current, plan, a);
    DomainCallsInTurn(h, o, current, plan, a);
    var runs := ShowsState(seen, id, Running);
    var off := if runs then StopPoint(ready, o, plan.domainUuid, 4) else ready;
    PublishEnds(ready, o, current, RecordDomainAbsent(current, plan).value);
    UndefineAndRecordEnds(off, o, current, plan);
    if runs && a.force && a.confirmed {
      StopEnds(ready, o, plan, a);
    }
  }

  // ---------------------------------------------------------------- one volume

  /** The volume that a plan's resource describes. */
  function PlannedVolume(r: ManagedResource): Volume {
    Volume(r.volumeName, r.volumeKey, Some(r.format), r.capacityBytes, r.backingPath)
  }

  /** The volumes that the call at this point finds. */
  function Pool(h: Host, o: Oracle): map<string, Volume> {
    Enter(h, o).world.volumes
  }

  /** The points of a deletion: the looks at the domains, the pool and the volume, the call, and the one after it. */
  function RemovalPoint(h: Host, o: Oracle, r: ManagedResource, k: nat): Host {
    var pool := Enter(h, o);
    var volume := Enter(pool, o);
    var call := Enter(volume, o);
    match k
    case 0 => h
    case 1 => pool
    case 2 => volume
    case 3 => call
    case _ =>
      if r.path in Pool(volume, o) && r.path in Pool(call, o) then
        var found := Seen(Listed(h, o), Pool(pool, o), Pool(volume, o)[r.path]);
        Act(call, o, VolumeRemoved(r, found, Enter(call, o).world, Enter(call, o).durable))
      else Enter(call, o)
  }

  function RemovalCalls(h: Host, o: Oracle, r: ManagedResource): seq<Check> {
    var pool, volume, call := RemovalPoint(h, o, r, 1), RemovalPoint(h, o, r, 2), RemovalPoint(h, o, r, 3);
    [Check(h, exists d :: d in Listed(h, o) && r.path in d.sources, false),
     Check(pool, exists p :: p in Pool(pool, o) && Pool(pool, o)[p].backing == Some(r.path), false),
     Check(volume, r.path in Pool(volume, o) && Pool(volume, o)[r.path] != PlannedVolume(r),
           r.path !in Pool(volume, o)),
     Check(call, false, r.path !in Pool(call, o))]
  }

  /** How many calls are made: up to the first that is not passed. */
  function CallsMade(o: Oracle, checks: seq<Check>): nat {
    if checks == [] then 0
    else if Verdict(o, [checks[0]]).Done? then 1 + CallsMade(o, checks[1..])
    else 1
  }

  predicate RemovalEndsAs(result: Step<Result<(), VolumeDeleteError>>, verdict: Outcome<()>,
                          refusal: VolumeDeleteError)
  {
    match verdict
    case Died => result == Crashed
    case Done(_) => result == Returned(Success(()))
    case Recoverable => result == Returned(Failure(VolumeBackend))
    case Refused => result == Returned(Failure(refusal))
  }

  lemma SameReferences(domains: seq<Domain>, volumes: map<string, Volume>, r: ManagedResource)
    ensures ReferencedByDomain(domains, r.path) <==> exists d :: d in domains && r.path in d.sources
    ensures BacksVolume(volumes, r.path) <==> exists p :: p in volumes && volumes[p].backing == Some(r.path)
    ensures r.path in volumes ==> (ExactVolume(volumes[r.path], r) <==> volumes[r.path] == PlannedVolume(r))
  {
    if exists d :: d in domains && r.path in d.sources {
      var d :| d in domains && r.path in d.sources;
      var i :| 0 <= i < |domains| && domains[i] == d;
    }
  }

  lemma UnbackedEnds(h: Host, o: Oracle, r: ManagedResource, calls: seq<Check>)
    requires calls == RemovalCalls(h, o, r)
    ensures var (end, result) := DeleteUnbacked(RemovalPoint(h, o, r, 2), o, r, Listed(h, o));
            && RemovalEndsAs(result, Verdict(o, calls[2..]), IdentityMismatch)
            && (result.Returned? ==> end == RemovalPoint(h, o, r, 2 + CallsMade(o, calls[2..])))
  {
    SameReferences([], Pool(calls[2].at, o), r);
    assert calls[2..] == [calls[2]] + [calls[3]];
    VerdictInTurn(o, [calls[2]], [calls[3]]);
    VerdictOfOne(o, calls[2]);
    VerdictOfOne(o, calls[3]);
    MadeOfTwo(o, calls[2], calls[3]);
    hide Verdict, CallsMade, ExactVolume;
  }

  lemma MadeOfTwo(o: Oracle, a: Check, b: Check)
    ensures CallsMade(o, [a] + [b]) == if Verdict(o, [a]).Done? then 2 else 1
  {
    hide Verdict;
    MadeInTurn(o, a, [b]);
    MadeInTurn(o, b, []);
    assert [b] + [] == [b];
  }

  lemma MadeInTurn(o: Oracle, a: Check, rest: seq<Check>)
    ensures CallsMade(o, [a] + rest) == if Verdict(o, [a]).Done? then 1 + CallsMade(o, rest) else 1
    ensures CallsMade(o, []) == 0
  {
    hide Verdict;
    assert ([a] + rest)[1..] == rest;
  }

  /** The exact deletion of a volume, with every error it can have and the point it leaves. */
  lemma ExactDeletionEnds(h: Host, o: Oracle, r: ManagedResource)
    requires r.role != SharedBase
    ensures var calls := RemovalCalls(h, o, r);
            var (end, result) := DeleteManagedVolumeExact(h, o, r);
            && RemovalEndsAs(result, Verdict(o, calls),
                             if Verdict(o, calls[..2]).Refused? then Referenced else IdentityMismatch)
            && (result.Returned? ==> end == RemovalPoint(h, o, r, CallsMade(o, calls)))
  {
    var calls := RemovalCalls(h, o, r);
    SameReferences(Listed(h, o), Pool(calls[1].at, o), r);
    var first, second, rest := [calls[0]], [calls[1]], calls[2..];
    assert calls == first + (second + rest) && calls[..2] == first + second;
    VerdictInTurn(o, first, second + rest);
    VerdictInTurn(o, second, rest);
    VerdictInTurn(o, first, second);
    VerdictOfOne(o, calls[0]);
    VerdictOfOne(o, calls[1]);
    MadeInTurn(o, calls[0], second + rest);
    MadeInTurn(o, calls[1], rest);
    UnbackedEnds(h, o, r, calls);
    hide Verdict, CallsMade, DeleteUnbacked, ReferencedByDomain, BacksVolume;
  }

  function Confirm(h: Host, o: Oracle, r: ManagedResource): Check {
    Check(h, r.path in Pool(h, o), false)
  }

  /** The point after the calls of a deletion that returned. */
  function AfterDeletion(h: Host, o: Oracle, r: ManagedResource): Host {
    RemovalPoint(h, o, r, CallsMade(o, RemovalCalls(h, o, r)))
  }

  /** A deletion that works is confirmed by one look at the path; one that fails in the backend needs two. */
  function RemovalVerdict(h: Host, o: Oracle, r: ManagedResource): Outcome<()> {
    var after := AfterDeletion(h, o, r);
    match Verdict(o, RemovalCalls(h, o, r))
    case Died => Died
    case Refused => Refused
    case Done(_) => Verdict(o, [Confirm(after, o, r)])
    case Recoverable => Verdict(o, [Confirm(after, o, r), Confirm(Enter(after, o), o, r)])
  }

  function RemovalDone(h: Host, o: Oracle, r: ManagedResource): Host {
    var after := AfterDeletion(h, o, r);
    if Verdict(o, RemovalCalls(h, o, r)).Done? then Enter(after, o) else Enter(Enter(after, o), o)
  }

  lemma ConfirmEnds(h: Host, o: Oracle, r: ManagedResource)
    ensures ConfirmAbsent(h, o, r).1 == Verdict(o, [Confirm(h, o, r)]) && ConfirmAbsent(h, o, r).0 == Enter(h, o)
  {
    VerdictOfOne(o, Confirm(h, o, r));
  }

  /** How the removal of one planned volume ends. */
  lemma RemovalEnds(h: Host, o: Oracle, r: ManagedResource)
    requires r.role != SharedBase
    ensures RemoveResource(h, o, r).1 == RemovalVerdict(h, o, r)
    ensures RemoveResource(h, o, r).1.Done? ==> RemoveResource(h, o, r).0 == RemovalDone(h, o, r)
  {
    hide Verdict, RemovalCalls, CallsMade, RemovalPoint, DeleteManagedVolumeExact, ConfirmAbsent, Confirm;
    ExactDeletionEnds(h, o, r);
    var after := AfterDeletion(h, o, r);
    ConfirmEnds(after, o, r);
    ConfirmEnds(Enter(after, o), o, r);
    VerdictInTurn(o, [Confirm(after, o, r)], [Confirm(Enter(after, o), o, r)]);
    assert [Confirm(after, o, r)] + [Confirm(Enter(after, o), o, r)]
        == [Confirm(after, o, r), Confirm(Enter(after, o), o, r)];
  }

  // ---------------------------------------------------------------- the storage loop

  /** The pending volumes in plan order, each with its record, and then the completion. */
  function StorageVerdict(h: Host, o: Oracle, current: GenerationIndex, plan: DeletePlan,
                          progress: seq<ResourceProgress>, position: nat): Outcome<()>
    requires |progress| == |plan.resources|
    decreases |progress| - position
  {
    if position >= |progress| then Verdict(o, [RecordCall(h, current)])
    else if progress[position] == ResourceAbsent then StorageVerdict(h, o, current, plan, progress, position + 1)
    else
      var r := plan.resources[position].resource;
      var done := RemovalDone(h, o, r);
      if !RemovalVerdict(h, o, r).Done? then RemovalVerdict(h, o, r)
      else if !Verdict(o, [RecordCall(done, current)]).Done? then Verdict(o, [RecordCall(done, current)])
      else
        match RecordResourceAbsent(current, plan, r)
        case Failure(_) => Refused
        case Success(next) =>
          StorageVerdict(Act(done, o, IndexWritten(current, next)), o, next, plan, progress, position + 1)
  }

  /** The loop, and the completion after it. */
  function StoreAndComplete(h: Host, o: Oracle, current: GenerationIndex, plan: DeletePlan,
                            progress: seq<ResourceProgress>, position: nat): Outcome<GenerationIndex>
    requires |progress| == |plan.resources|
  {
    var (h1, stored) := StoragePhase(h, o, current, plan, progress, position);
    if stored.Done? then Publish(h1, o, stored.value, CompleteInstanceDelete(stored.value, plan)).1 else stored
  }

  lemma {:induction false} StorageEnds(h: Host, o: Oracle, current: GenerationIndex, plan: DeletePlan,
                                       progress: seq<ResourceProgress>, position: nat)
    requires Coherent(current, plan) && ProgressOf(current).domain == DomainAbsent
    requires |progress| == |plan.resources|
    requires forall i :: 0 <= i < |progress| ==>
               ProgressOf(current).resources[i] == if i < position then ResourceAbsent else progress[i]
    ensures SameEnd(StoreAndComplete(h, o, current, plan, progress, position),
                    StorageVerdict(h, o, current, plan, progress, position))
    decreases |progress| - position
  {
    hide Verdict, RemoveResource, RemovalVerdict, RemovalDone, RecordCall, Publish, RecordResourceAbsent, ValidIndex,
         CompleteInstanceDelete;
    if position >= |progress| {
      CompleteIsCheckpoint(current, plan);
      PublishEnds(h, o, current, CompleteInstanceDelete(current, plan).value);
    } else if progress[position] == ResourceAbsent {
      StorageEnds(h, o, current, plan, progress, position + 1);
    } else {
      var r := plan.resources[position].resource;
      assert r.role != SharedBase by { PlannedIsDisposable(current, plan, position); }
      RemovalEnds(h, o, r);
      ProgressFits(current, plan);
      RecordResourceIsCheckpoint(current, plan, position);
      var done, next := RemovalDone(h, o, r), RecordResourceAbsent(current, plan, r).value;
      PublishEnds(done, o, current, next);
      if RemovalVerdict(h, o, r).Done? && Verdict(o, [RecordCall(done, current)]).Done? {
        StorageEnds(Act(done, o, IndexWritten(current, next)), o, next, plan, progress, position + 1);
      }
    }
  }

  lemma PlannedIsDisposable(index: GenerationIndex, plan: DeletePlan, i: nat)
    requires Coherent(index, plan) && i < |plan.resources|
    ensures plan.resources[i].resource.role != SharedBase
  {
  }

  lemma ProgressFits(index: GenerationIndex, plan: DeletePlan)
    requires Coherent(index, plan)
    ensures |ProgressOf(index).resources| == |plan.resources|
  {
  }

  // ---------------------------------------------------------------- a whole invocation

  /** Connecting, then the domain step if it is pending, then the storage loop. */
  function ExecutionVerdict(h: Host, o: Oracle, index: GenerationIndex, plan: DeletePlan, a: Attempt): Outcome<()>
    requires Coherent(index, plan)
  {
    var progress, connected := ProgressOf(index), Verdict(o, [Check(h, false, false)]);
    var ready := Enter(h, o);
    var domain := Verdict(o, DomainCalls(ready, o, index, plan, a));
    if !connected.Done? then connected
    else if progress.domain == DomainAbsent then StorageVerdict(ready, o, index, plan, progress.resources, 0)
    else if !domain.Done? then domain
    else
      match RecordDomainAbsent(index, plan)
      case Failure(_) => Refused
      case Success(next) =>
        StorageVerdict(Act(DomainRecorded(ready, o, plan), o, IndexWritten(index, next)), o, next, plan,
                       progress.resources, 0)
  }

  /** How an execution of the plan ends: which outcome, for every oracle and every attempt. */
  lemma ExecutionEnds(h: Host, o: Oracle, index: GenerationIndex, plan: DeletePlan, a: Attempt)
    requires Coherent(index, plan)
    ensures SameEnd(ExecuteDeletePlan(h, o, index, plan, a).1, ExecutionVerdict(h, o, index, plan, a))
  {
    var ready := Enter(h, o);
    VerdictOfOne(o, Check(h, false, false));
    ProgressFits(index, plan);
    hide Verdict, DomainPhase, DomainCalls, DomainRecorded, StoragePhase, StorageVerdict, RecordDomainAbsent,
         ValidIndex, Publish, CompleteInstanceDelete;
    if ProgressOf(index).domain == UndefinePending {
      DomainStepEnds(ready, o, index, plan, a);
      RecordDomainIsCheckpoint(index, plan);
      var next := RecordDomainAbsent(index, plan).value;
      StorageEnds(Act(DomainRecorded(ready, o, plan), o, IndexWritten(index, next)), o, next, plan,
                  ProgressOf(index).resources, 0);
    } else {
      StorageEnds(ready, o, index, plan, ProgressOf(index).resources, 0);
    }
  }

  /** The same of an invocation that resumes: only a valid index with a deletion in progress is executed. */
  lemma ResumeEnds(h: Host, o: Oracle, a: Attempt)
    ensures h.durable.None? || !ValidIndex(h.durable.value) || h.durable.value.deleteState.None? ==>
              Resume(h, o, a) == (h, Refused)
    ensures h.durable.Some? && ValidIndex(h.durable.value) && h.durable.value.deleteState.Some? ==>
              match h.durable.value.deleteState.value
              case Deleted(_) => Resume(h, o, a) == (h, Done(()))
              case Deleting(progress) =>
                && Coherent(h.durable.value, progress.plan)
                && SameEnd(Resume(h, o, a).1, ExecutionVerdict(h, o, h.durable.value, progress.plan, a))
  {
    hide ExecuteDeletePlan, ExecutionVerdict, ValidIndex;
    if h.durable.Some? && ValidIndex(h.durable.value) && h.durable.value.deleteState.Some? {
      match h.durable.value.deleteState.value
      case Deleting(progress) => ExecutionEnds(h, o, h.durable.value, progress.plan, a);
      case Deleted(_) =>
    }
  }

  /** An exact domain that runs is refused without force, and the refusal comes before any change. */
  lemma UnforcedRunningIsRefused(h: Host, o: Oracle, index: GenerationIndex, plan: DeletePlan, a: Attempt)
    requires Coherent(index, plan) && ProgressOf(index).domain == UndefinePending && !a.force
    requires Look(h, o).Answered? && Look(Enter(h, o), o).Answered?
    requires ShowsState(Listed(Enter(h, o), o), IdentityOf(plan), Running)
    ensures ExecuteDeletePlan(h, o, index, plan, a) == (Enter(Enter(h, o), o), Refused)
  {
    SeenOnce(Listed(Enter(h, o), o), IdentityOf(plan));
    hide ClassifyObservation, ShowsState, Unmentioned, Confused, ValidIndex;
  }

  /** A shared base is never deleted: the removal is refused before any call. */
  lemma SharedBaseIsRefused(h: Host, o: Oracle, r: ManagedResource)
    requires r.role == SharedBase
    ensures DeleteManagedVolumeExact(h, o, r) == (h, Returned(Failure(SharedBaseForbidden)))
    ensures RemoveResource(h, o, r) == (h, Refused)
  {
  }
}
