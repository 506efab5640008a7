/**
 The shared base image: which existing volume may be reused, and the durable proof for it, folded
 over the state directories of all managed instances in directory order.
 */
module SharedBase {
  import opened Results

  datatype Role = BaseRole | OverlayRole

  datatype Managed = Managed(
    role: Role, volumeName: string, volumeKey: string, path: string,
    format: string, capacityBytes: nat, backingPath: Option<string>)

  /** The base that a plan expects. */
  datatype BaseImage = BaseImage(name: string, path: string, format: string, capacityBytes: nat)

  /** A volume found in the pool. */
  datatype Found = Found(name: string, path: string, format: string, capacityBytes: nat, backingPath: Option<string>)

  // ---------------------------------------------------------------- classification

  datatype Disposition = Prepare | ReuseProven

  datatype ClassifyError = WrongShape | NoProof | DiffersFromProof

  function Classify(expected: BaseImage, existing: Option<Found>, proof: Option<Managed>)
    : Result<Disposition, ClassifyError>
  {
    if existing.None? then Success(Prepare)
    else
      var found := existing.value;
      if || found.name != expected.name || found.path != expected.path || found.format != expected.format
         || found.capacityBytes != expected.capacityBytes || found.backingPath.Some? then Failure(WrongShape)
      else if proof.None? then Failure(NoProof)
      else if || proof.value.role != BaseRole || proof.value.volumeName != found.name || proof.value.path != found.path
              || proof.value.format != found.format || proof.value.capacityBytes != found.capacityBytes
              || proof.value.backingPath != found.backingPath || proof.value.volumeKey == "" then
        Failure(DiffersFromProof)
      else Success(ReuseProven)
  }

  // ---------------------------------------------------------------- the fold over consumers

  /** How a consumer's recorded state compares with the live domain and its storage. */
  datatype Live = Unobservable | Inconsistent | Consistent

  /** What one entry of the state directory turns out to be. */
  datatype Entry =
    | Unreadable
    | NoInstance                 // no directory, no instance name, or no current generation
    | BrokenState                // its index or manifests cannot be read
    | Instance(name: string, resources: seq<Managed>, deleted: bool, live: Live)

  datatype ProofError =
    | EntryFailed | StateFailed | NotObserved | NotReconciled | IdentityDiffers | ConsumersDisagree | NoConsumer

  datatype Proof = Proof(consumer: string, resource: Managed)

  /** The first shared base of that name in an active manifest. */
  function FindBase(resources: seq<Managed>, name: string): Option<Managed> {
    if resources == [] then None
    else if resources[0].role == BaseRole && resources[0].volumeName == name then Some(resources[0])
    else FindBase(resources[1..], name)
  }

  predicate SameShape(base: Managed, found: Found) {
    && base.path == found.path && base.format == found.format
    && base.capacityBytes == found.capacityBytes && base.backingPath == found.backingPath
  }

  /** One directory entry; a completed deletion keeps its evidence but is never observed live. */
  function Examine(entry: Entry, name: string, found: Found, proof: Option<Proof>): Result<Option<Proof>, ProofError> {
    match entry
    case Unreadable => Failure(EntryFailed)
    case NoInstance => Success(proof)
    case BrokenState => Failure(StateFailed)
    case Instance(consumer, resources, deleted, live) =>
      var base := FindBase(resources, name);
      if base.None? then Success(proof)
      else if !deleted && live == Unobservable then Failure(NotObserved)
      else if !deleted && live == Inconsistent then Failure(NotReconciled)
      else if !SameShape(base.value, found) then Failure(IdentityDiffers)
      else if proof.Some? && proof.value.resource != base.value then Failure(ConsumersDisagree)
      else Success(Some(Proof(consumer, base.value)))
  }

  function Fold(entries: seq<Entry>, name: string, found: Found, proof: Option<Proof>)
    : Result<Option<Proof>, ProofError>
  {
    if entries == [] then Success(proof)
    else
      match Examine(entries[0], name, found, proof)
      case Failure(error) => Failure(error)
      case Success(next) => Fold(entries[1..], name, found, next)
  }

  function SharedBaseProof(entries: seq<Entry>, name: string, found: Found): Result<Proof, ProofError> {
    match Fold(entries, name, found, None)
    case Failure(error) => Failure(error)
    case Success(None) => Failure(NoConsumer)
    case Success(Some(proof)) => Success(proof)
  }

  method ExistingSharedBaseProof(entries: seq<Entry>, name: string, found: Found)
    returns (result: Result<Proof, ProofError>)
    ensures result == SharedBaseProof(entries, name, found)
  {
    var proof: Option<Proof> := None;
    var i := 0;
    while i < |entries|
      invariant i <= |entries|
      invariant Fold(entries, name, found, None) == Fold(entries[i..], name, found, proof)
    {
      var next := Examine(entries[i], name, found, proof);
      assert entries[i..][1..] == entries[i + 1..];
      if next.Failure? {
        return Failure(next.error);
      }
      proof := next.value;
      i := i + 1;
    }
    result := if proof.Some? then Success(proof.value) else Failure(NoConsumer);
  }

  // ---------------------------------------------------------------- what the fold decides

  /** The base that an entry's instance records, if any. */
  function Recorded(entry: Entry, name: string): Option<Managed> {
    if entry.Instance? then FindBase(entry.resources, name) else None
  }

  /** An entry that stands in nobody's way: readable, and if a consumer then reconciled and of the live shape. */
  predicate Sound(entry: Entry, name: string, found: Found) {
    && !entry.Unreadable? && !entry.BrokenState?
    && (Recorded(entry, name).Some? ==>
          (entry.deleted || entry.live == Consistent) && SameShape(Recorded(entry, name).value, found))
  }

  /** All entries are sound and record this resource or none. */
  predicate AllRecord(entries: seq<Entry>, name: string, found: Found, resource: Managed) {
    forall i :: 0 <= i < |entries| ==>
      && Sound(entries[i], name, found)
      && (Recorded(entries[i], name) == None || Recorded(entries[i], name) == Some(resource))
  }

  predicate NoneRecords(entries: seq<Entry>, name: string) {
    forall i :: 0 <= i < |entries| ==> Recorded(entries[i], name) == None
  }

  lemma {:induction false} FoldKeeps(entries: seq<Entry>, name: string, found: Found, proof: Proof)
    ensures Fold(entries, name, found, Some(proof)).Success? <==> AllRecord(entries, name, found, proof.resource)
    ensures Fold(entries, name, found, Some(proof)).Success? ==>
              && Fold(entries, name, found, Some(proof)).value.Some?
              && Fold(entries, name, found, Some(proof)).value.value.resource == proof.resource
  {
    if entries != [] {
      var next := Examine(entries[0], name, found, Some(proof));
      if next.Success? {
        FoldKeeps(entries[1..], name, found, next.value.value);
        assert AllRecord(entries, name, found, proof.resource) <==>
               (Sound(entries[0], name, found) && AllRecord(entries[1..], name, found, proof.resource)) by {
          assert forall i :: 0 < i < |entries| ==> entries[i] == entries[1..][i - 1];
        }
      }
    }
  }

  /** The fold proves a resource exactly when every entry is sound, some records it and none another. */
  lemma {:induction false} ProvenIff(entries: seq<Entry>, name: string, found: Found, resource: Managed)
    ensures (&& SharedBaseProof(entries, name, found).Success?
             && SharedBaseProof(entries, name, found).value.resource == resource)
       <==> (AllRecord(entries, name, found, resource)
             && exists i :: 0 <= i < |entries| && Recorded(entries[i], name) == Some(resource))
  {
    if entries != [] {
      var next := Examine(entries[0], name, found, None);
      var rest := entries[1..];
      assert forall i :: 0 < i < |entries| ==> entries[i] == rest[i - 1];
      if next.Success? {
        if next.value.Some? {
          FoldKeeps(rest, name, found, next.value.value);
        } else {
          ProvenIff(rest, name, found, resource);
        }
      }
    }
  }

  /** Success or failure, and the resource proven, do not depend on the directory order. */
  lemma OrderDoesNotMatter(a: seq<Entry>, b: seq<Entry>, name: string, found: Found)
    requires multiset(a) == multiset(b)
    ensures SharedBaseProof(a, name, found).Success? <==> SharedBaseProof(b, name, found).Success?
    ensures SharedBaseProof(a, name, found).Success? ==>
              SharedBaseProof(a, name, found).value.resource == SharedBaseProof(b, name, found).value.resource
  {
    if SharedBaseProof(a, name, found).Success? {
      SameProof(a, b, name, found);
    }
    if SharedBaseProof(b, name, found).Success? {
      SameProof(b, a, name, found);
    }
  }

  lemma SameProof(a: seq<Entry>, b: seq<Entry>, name: string, found: Found)
    requires multiset(a) == multiset(b) && SharedBaseProof(a, name, found).Success?
    ensures SharedBaseProof(b, name, found).Success?
    ensures SharedBaseProof(b, name, found).value.resource == SharedBaseProof(a, name, found).value.resource
  {
    var resource := SharedBaseProof(a, name, found).value.resource;
    ProvenIff(a, name, found, resource);
    ProvenIff(b, name, found, resource);
    forall i | 0 <= i < |b|
      ensures Sound(b[i], name, found) && (Recorded(b[i], name) == None || Recorded(b[i], name) == Some(resource)) {
      assert b[i] in multiset(b);
      assert b[i] in a;
    }
    var i :| 0 <= i < |a| && Recorded(a[i], name) == Some(resource);
    assert a[i] in multiset(a);
    assert a[i] in b;
  }

  /** The consumer that is named as evidence does depend on the order: it is the last one that records the base. */
  lemma LastConsumerIsNamed(before: seq<Entry>, last: Entry, after: seq<Entry>, name: string, found: Found)
    requires Recorded(last, name).Some? && NoneRecords(after, name)
    requires SharedBaseProof(before + [last] + after, name, found).Success?
    ensures SharedBaseProof(before + [last] + after, name, found).value.consumer == last.name
  {
    assert before + ([last] + after) == before + [last] + after;
    LastOfFold(before, last, after, name, found, None);
  }

  /** Two finished deletions that record one base: the other order names the other consumer. */
  lemma OrderNamesTheConsumer(m: Managed, found: Found)
    requires m.role == BaseRole && SameShape(m, found)
    ensures var a, b := Instance("a", [m], true, Consistent), Instance("b", [m], true, Consistent);
            && SharedBaseProof([a, b], m.volumeName, found) == Success(Proof("b", m))
            && SharedBaseProof([b, a], m.volumeName, found) == Success(Proof("a", m))
  {
    SecondIsNamed("a", "b", m, found);
    SecondIsNamed("b", "a", m, found);
  }

  lemma SecondIsNamed(first: string, second: string, m: Managed, found: Found)
    requires m.role == BaseRole && SameShape(m, found)
    ensures var a, b := Instance(first, [m], true, Consistent), Instance(second, [m], true, Consistent);
            SharedBaseProof([a, b], m.volumeName, found) == Success(Proof(second, m))
  {
    var a, b := Instance(first, [m], true, Consistent), Instance(second, [m], true, Consistent);
    assert Examine(a, m.volumeName, found, None) == Success(Some(Proof(first, m)));
    assert Examine(b, m.volumeName, found, Some(Proof(first, m))) == Success(Some(Proof(second, m)));
    assert [a, b][1..] == [b] && [b][1..] == [];
    assert Fold([b], m.volumeName, found, Some(Proof(first, m))) == Success(Some(Proof(second, m)));
  }

  lemma {:induction false} LastOfFold(before: seq<Entry>, last: Entry, after: seq<Entry>, name: string, found: Found,
                                      proof: Option<Proof>)
    requires Recorded(last, name).Some? && NoneRecords(after, name)
    requires Fold(before + ([last] + after), name, found, proof).Success?
    ensures Fold(before + ([last] + after), name, found, proof).value.Some?
    ensures Fold(before + ([last] + after), name, found, proof).value.value.consumer == last.name
  {
    var all := before + ([last] + after);
    var next := Examine(all[0], name, found, proof).value;
    if before == [] {
      assert all[1..] == after;
      QuietFold(after, name, found, next);
    } else {
      assert all[1..] == before[1..] + ([last] + after);
      LastOfFold(before[1..], last, after, name, found, next);
    }
  }

  /** Entries that record nothing leave the proof as it is, or fail. */
  lemma {:induction false} QuietFold(entries: seq<Entry>, name: string, found: Found, proof: Option<Proof>)
    requires NoneRecords(entries, name)
    ensures Fold(entries, name, found, proof).Success? ==> Fold(entries, name, found, proof).value == proof
  {
    if entries != [] {
      assert Recorded(entries[0], name) == None;
      QuietFold(entries[1..], name, found, proof);
    }
  }

  lemma {:induction false} FoundIsNamed(resources: seq<Managed>, name: string)
    ensures FindBase(resources, name).Some? ==>
              FindBase(resources, name).value.role == BaseRole && FindBase(resources, name).value.volumeName == name
  {
    if resources != [] {
      FoundIsNamed(resources[1..], name);
    }
  }

  /** The volume is exactly the base that the plan expects, and is backed by nothing. */
  predicate IsPlanned(expected: BaseImage, found: Found) {
    found == Found(expected.name, expected.path, expected.format, expected.capacityBytes, None)
  }

  /** The record is of exactly the base that the plan expects, under some key. */
  predicate IsRecordOf(expected: BaseImage, m: Managed) {
    && m.volumeKey != ""
    && m == Managed(BaseRole, expected.name, m.volumeKey, expected.path, expected.format, expected.capacityBytes, None)
  }

  /** Every answer of the classification, whatever the proof: an existing base is never reused unproven. */
  lemma ClassifiedIff(expected: BaseImage, existing: Option<Found>, proof: Option<Managed>)
    ensures Classify(expected, existing, proof) == Success(Prepare) <==> existing == None
    ensures Classify(expected, existing, proof) == Success(ReuseProven)
       <==> existing.Some? && IsPlanned(expected, existing.value) && proof.Some? && IsRecordOf(expected, proof.value)
    ensures Classify(expected, existing, proof) == Failure(WrongShape)
       <==> existing.Some? && !IsPlanned(expected, existing.value)
    ensures Classify(expected, existing, proof) == Failure(NoProof)
       <==> existing.Some? && IsPlanned(expected, existing.value) && proof == None
    ensures Classify(expected, existing, proof) == Failure(DiffersFromProof)
       <==> existing.Some? && IsPlanned(expected, existing.value) && proof.Some? && !IsRecordOf(expected, proof.value)
  {
  }

  /** The first shared base of that name in a list of resources. */
  predicate FirstBase(resources: seq<Managed>, name: string, i: int) {
    && 0 <= i < |resources| && resources[i].role == BaseRole && resources[i].volumeName == name
    && forall j :: 0 <= j < i ==> !(resources[j].role == BaseRole && resources[j].volumeName == name)
  }

  lemma {:induction false} BaseIsFirst(resources: seq<Managed>, name: string, base: Managed)
    ensures FindBase(resources, name) == Some(base)
       <==> exists i :: FirstBase(resources, name, i) && resources[i] == base
  {
    if resources != [] {
      var rest := resources[1..];
      BaseIsFirst(rest, name, base);
      assert forall j :: 0 < j < |resources| ==> resources[j] == rest[j - 1];
      if resources[0].role == BaseRole && resources[0].volumeName == name {
        assert FirstBase(resources, name, 0);
      } else {
        assert forall i :: FirstBase(rest, name, i) <==> FirstBase(resources, name, i + 1);
        if exists i :: FirstBase(resources, name, i) && resources[i] == base {
          var i :| FirstBase(resources, name, i) && resources[i] == base;
          assert FirstBase(rest, name, i - 1);
        }
      }
    }
  }

  // ---------------------------------------------------------------- why the fold fails

  /** The entry records the base and its instance is still there, so it has been observed live. */
  predicate Consumes(entry: Entry, name: string) {
    Recorded(entry, name).Some? && !entry.deleted
  }

  /** What is wrong with an entry, given that all before it are in order. */
  predicate FailsAs(before: seq<Entry>, entry: Entry, name: string, found: Found, error: ProofError) {
    match error
    case EntryFailed => entry.Unreadable?
    case StateFailed => entry.BrokenState?
    case NotObserved => Consumes(entry, name) && entry.live == Unobservable
    case NotReconciled => Consumes(entry, name) && entry.live == Inconsistent
    case IdentityDiffers =>
      && Recorded(entry, name).Some? && (entry.deleted || entry.live == Consistent)
      && !SameShape(Recorded(entry, name).value, found)
    case ConsumersDisagree =>
      && Recorded(entry, name).Some? && Sound(entry, name, found)
      && exists i :: 0 <= i < |before| && Recorded(before[i], name).Some?
                  && Recorded(before[i], name) != Recorded(entry, name)
    case NoConsumer => false
  }

  /** All entries are sound and those that record the base record the same one. */
  predicate Agreeing(entries: seq<Entry>, name: string, found: Found) {
    && (forall i :: 0 <= i < |entries| ==> Sound(entries[i], name, found))
    && forall i, j :: 0 <= i < j < |entries| && Recorded(entries[i], name).Some? && Recorded(entries[j], name).Some? ==>
         Recorded(entries[i], name) == Recorded(entries[j], name)
  }

  /** What the fold carries is what the entries so far record. */
  predicate Carries(before: seq<Entry>, name: string, proof: Option<Proof>) {
    && (proof.None? ==> NoneRecords(before, name))
    && (proof.Some? ==> exists i :: 0 <= i < |before| && Recorded(before[i], name) == Some(proof.value.resource))
  }

  lemma {:induction false} FoldFails(before: seq<Entry>, entries: seq<Entry>, name: string, found: Found,
                                     proof: Option<Proof>, k: nat, error: ProofError)
    requires Agreeing(before, name, found) && Carries(before, name, proof)
    requires k < |entries| && Agreeing(before + entries[..k], name, found)
    requires FailsAs(before + entries[..k], entries[k], name, found, error)
    ensures Fold(entries, name, found, proof) == Failure(error)
    decreases k
  {
    if k == 0 {
      assert before + entries[..0] == before;
      FailureIsExamined(before, entries[0], name, found, proof, error);
    } else {
      var first, rest := entries[0], entries[1..];
      assert (before + [first]) + rest[..k - 1] == before + entries[..k];
      var all := before + entries[..k];
      assert all[|before|] == first && all[..|before| + 1] == before + [first];
      AgreeingFront(all, |before| + 1, name, found);
      ExaminedCarries(before, first, name, found, proof);
      FoldFails(before + [first], rest, name, found, Examine(first, name, found, proof).value, k - 1, error);
    }
  }

  lemma AgreeingFront(entries: seq<Entry>, k: nat, name: string, found: Found)
    requires k <= |entries| && Agreeing(entries, name, found)
    ensures Agreeing(entries[..k], name, found)
  {
  }

  lemma FailureIsExamined(before: seq<Entry>, entry: Entry, name: string, found: Found, proof: Option<Proof>,
                          error: ProofError)
    requires Agreeing(before, name, found) && Carries(before, name, proof)
    requires FailsAs(before, entry, name, found, error)
    ensures Examine(entry, name, found, proof) == Failure(error)
  {
    if error == ConsumersDisagree {
      var i :| && 0 <= i < |before| && Recorded(before[i], name).Some?
               && Recorded(before[i], name) != Recorded(entry, name);
      assert proof.Some?;
      var j :| 0 <= j < |before| && Recorded(before[j], name) == Some(proof.value.resource);
      assert i == j || Recorded(before[i], name) == Recorded(before[j], name);
    }
  }

  lemma ExaminedCarries(before: seq<Entry>, entry: Entry, name: string, found: Found, proof: Option<Proof>)
    requires Agreeing(before + [entry], name, found) && Carries(before, name, proof)
    ensures Examine(entry, name, found, proof).Success?
    ensures Carries(before + [entry], name, Examine(entry, name, found, proof).value)
  {
    var all := before + [entry];
    assert all[|before|] == entry && forall i :: 0 <= i < |before| ==> all[i] == before[i];
    assert Sound(entry, name, found);
    if proof.Some? && Recorded(entry, name).Some? {
      var i :| 0 <= i < |before| && Recorded(before[i], name) == Some(proof.value.resource);
      assert Recorded(all[i], name) == Recorded(all[|before|], name);
    }
  }

  /** The first entry that is in the way decides the error: it is not read, not reconciled, or disagrees. */
  lemma FirstFailureDecides(entries: seq<Entry>, name: string, found: Found, k: nat, error: ProofError)
    requires k < |entries| && Agreeing(entries[..k], name, found)
    requires FailsAs(entries[..k], entries[k], name, found, error)
    ensures SharedBaseProof(entries, name, found) == Failure(error)
  {
    assert [] + entries[..k] == entries[..k];
    FoldFails([], entries, name, found, None, k, error);
  }

  lemma {:induction false} FoldBlamesAnEntry(entries: seq<Entry>, name: string, found: Found, proof: Option<Proof>)
    ensures Fold(entries, name, found, proof) != Failure(NoConsumer)
    ensures proof.Some? && Fold(entries, name, found, proof).Success? ==> Fold(entries, name, found, proof).value.Some?
  {
    if entries != [] {
      var next := Examine(entries[0], name, found, proof);
      if next.Success? {
        FoldBlamesAnEntry(entries[1..], name, found, next.value);
      }
    }
  }

  /** That nobody consumes the base is answered exactly if all entries are sound and none records it. */
  lemma {:induction false} NoConsumerIff(entries: seq<Entry>, name: string, found: Found)
    ensures SharedBaseProof(entries, name, found) == Failure(NoConsumer)
       <==> NoneRecords(entries, name) && forall i :: 0 <= i < |entries| ==> Sound(entries[i], name, found)
  {
    if entries != [] {
      var rest := entries[1..];
      assert forall i :: 0 < i < |entries| ==> entries[i] == rest[i - 1];
      var next := Examine(entries[0], name, found, None);
      if next.Success? {
        if next.value.Some? {
          FoldBlamesAnEntry(rest, name, found, next.value);
        } else {
          NoConsumerIff(rest, name, found);
        }
      }
    }
  }

  /**
   Reuse: given the proof folded from the state directory, a live volume of the expected name is
   reused exactly when plan, volume and every recorded consumer agree, and the record carries a key.
   */
  lemma ReusedIff(expected: BaseImage, found: Found, entries: seq<Entry>, resource: Managed)
    requires found.name == expected.name
    requires SharedBaseProof(entries, expected.name, found).Success?
    requires SharedBaseProof(entries, expected.name, found).value.resource == resource
    ensures Classify(expected, Some(found), Some(resource)) == Success(ReuseProven)
       <==> (&& found.path == expected.path && found.format == expected.format
             && found.capacityBytes == expected.capacityBytes && found.backingPath == None && resource.volumeKey != "")
    ensures Classify(expected, Some(found), Some(resource)) == Success(ReuseProven) ==>
              && resource == Managed(BaseRole, expected.name, resource.volumeKey, expected.path, expected.format,
                                     expected.capacityBytes, None)
              && forall i :: 0 <= i < |entries| ==>
                   Recorded(entries[i], expected.name) == None || Recorded(entries[i], expected.name) == Some(resource)
  {
    ProvenIff(entries, expected.name, found, resource);
    var i :| 0 <= i < |entries| && Recorded(entries[i], expected.name) == Some(resource);
    assert Sound(entries[i], expected.name, found);
    FoundIsNamed(entries[i].resources, expected.name);
  }
}
