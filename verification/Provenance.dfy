/**
 The provenance record of a release bundle: built once after verification, and rebuilt from its own
 stored fields at every later inspection.
 */
module Provenance {
  import opened Results
  import opened Primitives
  import opened Sequences
  import opened Bundle

  type Seconds = n: nat | n < BOUND

  const BOUND: nat := 0x1_0000_0000_0000_0000
  const MAX_FUTURE_SKEW_SECONDS: nat := 24 * 60 * 60
  const NOT_BEFORE: nat := 1_784_073_600
  const SIGNER: string := "916B8D99C38EAF5E8ADC7A2A8D66066A2EEACCDA"
  const ARCHIVE_NAME: string := "Whonix-LXQt-" + RELEASE + ".Intel_AMD64.qcow2.libvirt.xz"
  const NOTATION: string := "file@name=" + ARCHIVE_NAME
  const SOURCE_URL: string := "https://www.whonix.org/download/libvirt/" + RELEASE + "/" + ARCHIVE_NAME

  datatype Signature = Signature(valid: bool, signer: string, notation: string, time: Seconds)

  datatype Record = Record(
    release: string, archiveName: string, sourceUrl: string, signer: string, notation: string, signedAt: Seconds,
    archiveDigest: string, artifacts: seq<Labelled>, identity: string)

  function SaturatingAdd(a: Seconds, b: nat): Seconds {
    if a + b < BOUND then a + b else BOUND - 1
  }

  predicate ValidSignature(s: Signature, now: Seconds, previous: Option<Seconds>) {
    && s.valid && s.signer == SIGNER && s.notation == NOTATION && NOT_BEFORE <= s.time
    && s.time <= SaturatingAdd(now, MAX_FUTURE_SKEW_SECONDS)
    && (previous.Some? ==> previous.value <= s.time)
  }

  function RoleName(role: ArtifactRole): string {
    match role
    case GatewayDisk => "GatewayDisk"
    case GatewayXml => "GatewayXml"
    case WorkstationDisk => "WorkstationDisk"
    case WorkstationXml => "WorkstationXml"
    case License => "License"
    case Disclaimer => "Disclaimer"
  }

  function DigestText(artifacts: seq<Labelled>): string {
    if artifacts == [] then "" else RoleName(artifacts[0].role) + artifacts[0].text + DigestText(artifacts[1..])
  }

  predicate SameRoles(a: seq<Labelled>, b: seq<Labelled>) {
    |a| == |b| && forall i :: 0 <= i < |a| ==> a[i].role == b[i].role
  }

  /** The record, given the digest function for its identity. */
  function BundleProvenance(s: Signature, now: Seconds, archiveDigest: string, artifacts: seq<Labelled>,
                            hash: string -> string): Result<Record, BundleError>
  {
    if !ValidSignature(s, now, None) then Failure(BadSignature)
    else
      var sorted := SortByRole(artifacts);
      if || !ValidDigest(archiveDigest) || !SameRoles(sorted, LAYOUT)
         || exists i :: 0 <= i < |sorted| && !ValidDigest(sorted[i].text) then Failure(Incomplete)
      else
        Success(Record(
          RELEASE, ARCHIVE_NAME, SOURCE_URL, s.signer, s.notation, s.time, archiveDigest, sorted,
          hash(RELEASE + archiveDigest + DigestText(sorted))))
  }

  // ---------------------------------------------------------------- order

  lemma RemoveHead(x: Labelled, a: seq<Labelled>, b: seq<Labelled>)
    requires multiset([x] + a) == multiset([x] + b)
    ensures multiset(a) == multiset(b)
  {
    assert multiset([x] + a) == multiset{x} + multiset(a) && multiset([x] + b) == multiset{x} + multiset(b);
    assert multiset(a) == (multiset{x} + multiset(a)) - multiset{x};
    assert multiset(b) == (multiset{x} + multiset(b)) - multiset{x};
  }

  lemma SameFirst(a: seq<Labelled>, b: seq<Labelled>)
    requires Ascending(a) && Ascending(b) && DistinctRoles(a) && multiset(a) == multiset(b) && a != []
    ensures b != [] && a[0] == b[0]
  {
    assert |multiset(a)| == |multiset(b)|;
    assert a[0] in multiset(b) && b[0] in multiset(a);
    var i :| 0 <= i < |a| && a[i] == b[0];
    var j :| 0 <= j < |b| && b[j] == a[0];
    assert Rank(b[0].role) <= Rank(b[j].role);
    RanksDiffer(a[0].role, a[i].role);
  }

  /** Lists in role order with distinct roles are determined by their elements. */
  lemma {:induction false} AscendingIsUnique(a: seq<Labelled>, b: seq<Labelled>)
    requires Ascending(a) && Ascending(b) && DistinctRoles(a) && multiset(a) == multiset(b)
    ensures a == b
  {
    if a == [] {
      assert |multiset(b)| == 0;
    } else {
      SameFirst(a, b);
      assert a == [a[0]] + a[1..] && b == [a[0]] + b[1..];
      RemoveHead(a[0], a[1..], b[1..]);
      AscendingIsUnique(a[1..], b[1..]);
    }
  }

  lemma LayoutRolesDiffer(cs: seq<Labelled>)
    requires SameRoles(cs, LAYOUT)
    ensures DistinctRoles(cs)
  {
    hide LAYOUT;
    RolesOfLayout();
  }

  lemma SameSort(a: seq<Labelled>, b: seq<Labelled>)
    requires multiset(a) == multiset(b) && SameRoles(SortByRole(a), LAYOUT)
    ensures SortByRole(a) == SortByRole(b)
  {
    hide LAYOUT, SortByRole;
    SortsByRole(a);
    SortsByRole(b);
    LayoutRolesDiffer(SortByRole(a));
    AscendingIsUnique(SortByRole(a), SortByRole(b));
  }

  /** The record, or the refusal, does not depend on the order in which the artifacts are given. */
  lemma ProvenanceIgnoresOrder(s: Signature, now: Seconds, archiveDigest: string, a: seq<Labelled>, b: seq<Labelled>,
                               hash: string -> string)
    requires multiset(a) == multiset(b)
    ensures BundleProvenance(s, now, archiveDigest, a, hash) == BundleProvenance(s, now, archiveDigest, b, hash)
  {
    hide SortByRole, LAYOUT, ValidSignature, ValidDigest, SameRoles, DigestText;
    if SameRoles(SortByRole(a), LAYOUT) {
      SameSort(a, b);
    } else if SameRoles(SortByRole(b), LAYOUT) {
      SameSort(b, a);
    }
  }

  // ---------------------------------------------------------------- what is accepted

  /** A valid signature of the release by the pinned signer, made between the floor and a day from now. */
  predicate Trusted(s: Signature, now: Seconds) {
    s.valid && s.signer == SIGNER && s.notation == NOTATION && NOT_BEFORE <= s.time <= now + 86400
  }

  /** A trusted signature is valid unless it is older than one that was verified before. */
  lemma ValidSignatureIff(s: Signature, now: Seconds, previous: Option<Seconds>)
    ensures ValidSignature(s, now, previous) <==> Trusted(s, now) && (previous == None || s.time >= previous.value)
  {
    hide SIGNER, NOTATION;
  }

  /** One artifact of each role and no other. */
  predicate OneOfEachRole(artifacts: seq<Labelled>) {
    |artifacts| == 6 && forall role: ArtifactRole :: HasRole(artifacts, role)
  }

  predicate Digested(artifacts: seq<Labelled>) {
    forall a :: a in artifacts ==> ValidDigest(a.text)
  }

  lemma SameElements(a: seq<Labelled>, b: seq<Labelled>)
    requires multiset(a) == multiset(b)
    ensures forall x :: x in a <==> x in b
    ensures forall role :: HasRole(a, role) <==> HasRole(b, role)
  {
    forall x ensures x in a <==> x in b {
      assert x in a <==> x in multiset(a);
      assert x in b <==> x in multiset(b);
    }
    forall role ensures HasRole(a, role) <==> HasRole(b, role) {
      RoleOfElement(a, b, role);
      RoleOfElement(b, a, role);
    }
  }

  lemma RoleOfElement(a: seq<Labelled>, b: seq<Labelled>, role: ArtifactRole)
    requires forall x :: x in a ==> x in b
    ensures HasRole(a, role) ==> HasRole(b, role)
  {
    if HasRole(a, role) {
      var i :| 0 <= i < |a| && a[i].role == role;
      assert a[i] in b;
      var j :| 0 <= j < |b| && b[j] == a[i];
    }
  }

  lemma RolesOfSort(artifacts: seq<Labelled>)
    requires SameRoles(SortByRole(artifacts), LAYOUT)
    ensures OneOfEachRole(artifacts)
  {
    hide SortByRole, LAYOUT, Rank, HasRole;
    SortsByRole(artifacts);
    RolesOfLayout();
    var sorted := SortByRole(artifacts);
    SameElements(artifacts, sorted);
    forall role: ArtifactRole ensures HasRole(sorted, role) {
      RankBound(role);
      assert LAYOUT[Rank(role)].role == role;
      RoleAt(sorted, Rank(role));
    }
  }

  lemma RoleAt(artifacts: seq<Labelled>, i: nat)
    requires i < |artifacts|
    ensures HasRole(artifacts, artifacts[i].role)
  {
  }

  lemma SortIsDigested(artifacts: seq<Labelled>)
    ensures Digested(SortByRole(artifacts)) <==> Digested(artifacts)
  {
    hide SortByRole, ValidDigest, HasRole;
    SortsByRole(artifacts);
    SameElements(artifacts, SortByRole(artifacts));
  }

  /** Six artifacts with every role, in the order of the roles, have the roles of the layout. */
  lemma EachRoleInOrder(artifacts: seq<Labelled>)
    requires OneOfEachRole(artifacts)
    ensures SameRoles(SortByRole(artifacts), LAYOUT)
  {
    hide SortByRole, LAYOUT, Rank, HasRole, Ascending;
    SortsByRole(artifacts);
    RolesOfLayout();
    var sorted := SortByRole(artifacts);
    SameElements(artifacts, sorted);
    RanksInOrder(sorted);
    forall i | 0 <= i < |sorted| ensures sorted[i].role == LAYOUT[i].role {
      RanksDiffer(sorted[i].role, LAYOUT[i].role);
    }
  }

  lemma At(artifacts: seq<Labelled>, role: ArtifactRole) returns (i: nat)
    requires HasRole(artifacts, role)
    ensures i < |artifacts| && artifacts[i].role == role
  {
    i :| 0 <= i < |artifacts| && artifacts[i].role == role;
  }

  /** An artifact of lower rank stands before one of higher rank. */
  lemma Before(artifacts: seq<Labelled>, i: nat, j: nat)
    requires Ascending(artifacts) && i < |artifacts| && j < |artifacts|
    requires Rank(artifacts[i].role) < Rank(artifacts[j].role)
    ensures i < j
  {
    hide Rank;
  }

  lemma RanksInOrder(sorted: seq<Labelled>)
    requires |sorted| == 6 && Ascending(sorted) && forall role: ArtifactRole :: HasRole(sorted, role)
    ensures forall i :: 0 <= i < 6 ==> Rank(sorted[i].role) == i
  {
    hide HasRole, Ascending;
    var a := At(sorted, GatewayDisk);
    var b := At(sorted, GatewayXml);
    var c := At(sorted, WorkstationDisk);
    var d := At(sorted, WorkstationXml);
    var e := At(sorted, License);
    var f := At(sorted, Disclaimer);
    Before(sorted, a, b);
    Before(sorted, b, c);
    Before(sorted, c, d);
    Before(sorted, d, e);
    Before(sorted, e, f);
  }

  /**
   The provenance of a bundle: a record exactly for a trusted signature and one artifact of each role, all
   with well-formed digests; the signature is blamed before the digests.
   */
  lemma ProvenanceIff(s: Signature, now: Seconds, archiveDigest: string, artifacts: seq<Labelled>,
                      hash: string -> string)
    ensures var record := BundleProvenance(s, now, archiveDigest, artifacts, hash);
            && (record == Failure(BadSignature) <==> !Trusted(s, now))
            && (record == Failure(Incomplete) <==>
                  && Trusted(s, now)
                  && !(ValidDigest(archiveDigest) && OneOfEachRole(artifacts) && Digested(artifacts)))
            && (record.Success? <==>
                  && Trusted(s, now) && ValidDigest(archiveDigest) && OneOfEachRole(artifacts) && Digested(artifacts))
            && (record.Success? ==>
                  && record.value.release == RELEASE && record.value.archiveName == ARCHIVE_NAME
                  && record.value.sourceUrl == SOURCE_URL && record.value.signer == SIGNER
                  && record.value.notation == NOTATION && record.value.signedAt == s.time
                  && record.value.archiveDigest == archiveDigest
                  && multiset(record.value.artifacts) == multiset(artifacts) && Ascending(record.value.artifacts)
                  && record.value.identity == hash(RELEASE + archiveDigest + DigestText(record.value.artifacts)))
  {
    hide SortByRole, LAYOUT, ValidDigest, SameRoles, DigestText, SIGNER, NOTATION, ARCHIVE_NAME, SOURCE_URL, RELEASE,
         ValidSignature, Trusted, OneOfEachRole, Ascending;
    ValidSignatureIff(s, now, None);
    SortsByRole(artifacts);
    SortIsDigested(artifacts);
    DigestsOfSort(SortByRole(artifacts));
    if SameRoles(SortByRole(artifacts), LAYOUT) {
      RolesOfSort(artifacts);
    }
    if OneOfEachRole(artifacts) {
      EachRoleInOrder(artifacts);
    }
    SignedBy(s, now);
  }

  lemma DigestsOfSort(sorted: seq<Labelled>)
    ensures Digested(sorted) <==> forall i :: 0 <= i < |sorted| ==> ValidDigest(sorted[i].text)
  {
    hide ValidDigest;
    if forall i :: 0 <= i < |sorted| ==> ValidDigest(sorted[i].text) {
      forall a | a in sorted ensures ValidDigest(a.text) {
        var i :| 0 <= i < |sorted| && sorted[i] == a;
      }
    }
  }

  lemma SignedBy(s: Signature, now: Seconds)
    ensures Trusted(s, now) ==> s.signer == SIGNER && s.notation == NOTATION
  {
    hide SIGNER, NOTATION;
  }

  // ---------------------------------------------------------------- rebuilding

  /** The signature evidence as stored in a record. */
  function StoredSignature(r: Record): Signature {
    Signature(true, r.signer, r.notation, r.signedAt)
  }

  function Rebuilt(r: Record, now: Seconds, hash: string -> string): Result<Record, BundleError> {
    BundleProvenance(StoredSignature(r), now, r.archiveDigest, r.artifacts, hash)
  }

  /**
   A record rebuilt from its own fields is the record itself exactly while its signature does not lie
   too far in the future: so at every time from its creation on, and at no time when the clock has
   been set back by more than the tolerated skew.
   */
  lemma RebuildsIff(s: Signature, now: Seconds, archiveDigest: string, artifacts: seq<Labelled>, hash: string -> string,
                    r: Record, later: Seconds)
    requires BundleProvenance(s, now, archiveDigest, artifacts, hash) == Success(r)
    ensures Rebuilt(r, later, hash) == Success(r) <==> r.signedAt <= SaturatingAdd(later, MAX_FUTURE_SKEW_SECONDS)
    ensures later >= now ==> Rebuilt(r, later, hash) == Success(r)
  {
    hide SortByRole, LAYOUT, ValidDigest, SameRoles, DigestText, SIGNER, NOTATION, ARCHIVE_NAME, SOURCE_URL;
    var sorted := SortByRole(artifacts);
    SortsByRole(artifacts);
    SortsByRole(sorted);
    LayoutRolesDiffer(sorted);
    AscendingIsUnique(sorted, SortByRole(sorted));
  }

  /** What a stored record must say to be its own rebuilding, whoever wrote it. */
  lemma RebuiltMeans(r: Record, now: Seconds, hash: string -> string)
    requires Rebuilt(r, now, hash) == Success(r)
    ensures r.release == RELEASE && r.archiveName == ARCHIVE_NAME && r.sourceUrl == SOURCE_URL
    ensures r.signer == SIGNER && r.notation == NOTATION && NOT_BEFORE <= r.signedAt
    ensures SameRoles(r.artifacts, LAYOUT) && ValidDigest(r.archiveDigest)
    ensures forall i :: 0 <= i < |r.artifacts| ==> ValidDigest(r.artifacts[i].text)
    ensures r.identity == hash(RELEASE + r.archiveDigest + DigestText(r.artifacts))
  {
    hide SortByRole, LAYOUT, ValidDigest, SameRoles, DigestText, SIGNER, NOTATION, ARCHIVE_NAME, SOURCE_URL, RELEASE;
  }

  // ---------------------------------------------------------------- the identity

  ghost predicate CollisionFree(hash: string -> string) {
    forall a, b :: hash(a) == hash(b) ==> a == b
  }

  predicate AllDigests(artifacts: seq<Labelled>) {
    forall i :: 0 <= i < |artifacts| ==> |artifacts[i].text| == 64
  }

  lemma DigestTextStep(x: Labelled, rest: seq<Labelled>)
    ensures DigestText([x] + rest) == RoleName(x.role) + (x.text + DigestText(rest))
  {
    assert ([x] + rest)[1..] == rest;
  }

  /** Digests of one length and the same roles in the same order are told apart by their text. */
  lemma {:induction false} ArtifactsDetermined(a: seq<Labelled>, b: seq<Labelled>)
    requires SameRoles(a, b) && AllDigests(a) && AllDigests(b) && DigestText(a) == DigestText(b)
    ensures a == b
  {
    if a != [] {
      var x, y, restA, restB := a[0], b[0], a[1..], b[1..];
      assert a == [x] + restA && b == [y] + restB;
      assert SameRoles(restA, restB) && AllDigests(restA) && AllDigests(restB);
      DigestTextStep(x, restA);
      DigestTextStep(y, restB);
      hide DigestText, RoleName, SameRoles, AllDigests;
      SameParts(RoleName(x.role), x.text + DigestText(restA), RoleName(y.role), y.text + DigestText(restB));
      SameParts(x.text, DigestText(restA), y.text, DigestText(restB));
      ArtifactsDetermined(restA, restB);
    }
  }

  /**
   With a digest function without collisions, two records that are their own rebuildings have one identity
   exactly if they have the same archive digest and the same artifacts with the same digests.
   */
  lemma IdentityDetermines(r: Record, now: Seconds, other: Record, later: Seconds, hash: string -> string)
    requires CollisionFree(hash) && Rebuilt(r, now, hash) == Success(r) && Rebuilt(other, later, hash) == Success(other)
    ensures r.identity == other.identity <==> r.archiveDigest == other.archiveDigest && r.artifacts == other.artifacts
  {
    hide Rebuilt, RELEASE, LAYOUT, DigestText;
    RebuiltMeans(r, now, hash);
    RebuiltMeans(other, later, hash);
    var x, y := DigestText(r.artifacts), DigestText(other.artifacts);
    if r.identity == other.identity {
      assert RELEASE + (r.archiveDigest + x) == RELEASE + r.archiveDigest + x;
      assert RELEASE + (other.archiveDigest + y) == RELEASE + other.archiveDigest + y;
      SameParts(RELEASE, r.archiveDigest + x, RELEASE, other.archiveDigest + y);
      SameParts(r.archiveDigest, x, other.archiveDigest, y);
      ArtifactsDetermined(r.artifacts, other.artifacts);
    }
  }
}
