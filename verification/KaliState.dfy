/**
 The image cache of one prepared release: a small filesystem with hard links, its full classification,
 which hashes artifacts, and the cheap inventory, which only looks at shapes and records.
 */
module KaliState {
  import opened Results
  import opened Primitives

  type Data = string
  type Digest = string

  const SIGNER: string := "827C8569F2518CC677FECA1AED65462EC8D5E4C5"

  /** A JSON file: unreadable while it is being written, or a typed record. */
  datatype IntentFile = BrokenIntent | IntentRecord(preparing: bool, pathsMatch: bool, checksum: Digest)

  datatype Metadata = Metadata(
    verified: bool, releaseMatches: bool, architectureMatches: bool, sourceMatches: bool, pathsMatch: bool,
    signer: string,
    authenticatedArchive: Option<Digest>, actualArchive: Option<Digest>, preparedDigest: Option<Digest>)

  datatype MetadataFile = BrokenMetadata | MetadataRecord(metadata: Metadata)

  /**
   Entries of the two directories. The extracted and the prepared file are names of inodes, so that a
   hard link makes them the same file with two links. Extraction roots are named by a nonce, and are
   directories or something else.
   */
  datatype Cache = Cache(
    archive: Option<Data>, sums: Option<Data>, signature: Option<Data>, key: Option<Data>,
    intentTemporary: Option<IntentFile>, intent: Option<IntentFile>,
    roots: map<nat, bool>, extracted: Option<nat>, prepared: Option<nat>, files: map<nat, Data>,
    metadataTemporary: Option<MetadataFile>, metadata: Option<MetadataFile>)

  function Links(c: Cache, inode: nat): nat {
    (if c.extracted == Some(inode) then 1 else 0) + (if c.prepared == Some(inode) then 1 else 0)
  }

  predicate SingleRegular(c: Cache, name: Option<nat>) {
    name.Some? && name.value in c.files && Links(c, name.value) == 1
  }

  // ---------------------------------------------------------------- full classification

  datatype Preparation = Missing | Interrupted | Orphaned | Conflict | Verified(metadata: Metadata)

  /** The recorded metadata, if both artifacts still have the recorded digests. */
  function VerifiedKali(c: Cache, hash: Data -> Digest): Option<Metadata> {
    if c.metadata.None? || c.metadata.value.BrokenMetadata? then None
    else
      var m := c.metadata.value.metadata;
      if || m.authenticatedArchive.None? || m.preparedDigest.None? || !m.verified || m.signer != SIGNER || !m.pathsMatch
         || m.actualArchive != m.authenticatedArchive || c.archive.None? || !SingleRegular(c, c.prepared)
         || hash(c.archive.value) != m.authenticatedArchive.value
         || hash(c.files[c.prepared.value]) != m.preparedDigest.value then None
      else Some(m)
  }

  predicate CoherentIntent(intent: IntentFile) {
    intent.IntentRecord? && intent.preparing && intent.pathsMatch && ValidDigest(intent.checksum)
  }

  function Inspect(c: Cache, hash: Data -> Digest): Preparation {
    if c.metadata.Some? then
      match VerifiedKali(c, hash)
      case Some(m) => Verified(m)
      case None => Conflict
    else if c.prepared.Some? then (if SingleRegular(c, c.prepared) then Orphaned else Conflict)
    else if c.intent.Some? || c.metadataTemporary.Some? || c.roots != map[] then
      if |c.roots| > 1 || (exists root :: root in c.roots && !c.roots[root])
         || (c.intent.Some? && !CoherentIntent(c.intent.value)) then Conflict
      else Interrupted
    else Missing
  }

  // ---------------------------------------------------------------- inventory

  datatype Recorded =
    | RecordedMissing | RecordedInterrupted | RecordedOrphaned | RecordedConflict | RecordedVerified | Unreadable

  predicate RecordedDigest(digest: Option<Digest>) {
    digest.Some? && ValidDigest(digest.value)
  }

  /** What the inventory asks of a record beyond what full verification asks of it. */
  predicate Described(m: Metadata) {
    && m.releaseMatches && m.architectureMatches && m.sourceMatches
    && RecordedDigest(m.authenticatedArchive) && RecordedDigest(m.actualArchive) && RecordedDigest(m.preparedDigest)
  }

  function Inventory(c: Cache): Recorded {
    if c.metadata.Some? then
      if c.metadata.value.BrokenMetadata? then Unreadable
      else
        var m := c.metadata.value.metadata;
        if m.verified && m.pathsMatch && Described(m) && c.archive.Some? && SingleRegular(c, c.prepared) then
          RecordedVerified
        else RecordedConflict
    else if c.prepared.Some? then (if SingleRegular(c, c.prepared) then RecordedOrphaned else RecordedConflict)
    else if c.intent.Some? || c.metadataTemporary.Some? || c.roots != map[] then RecordedInterrupted
    else RecordedMissing
  }

  /**
   The inventory agrees with a full verification exactly for records that describe the release with
   well-formed digests; and what it calls verified, the full classification calls verified or, when
   an artifact has changed since, conflicting, but never missing, interrupted or orphaned.
   */
  lemma InventoryRefines(c: Cache, hash: Data -> Digest)
    ensures Inspect(c, hash).Verified? ==> (Inventory(c) == RecordedVerified <==> Described(Inspect(c, hash).metadata))
    ensures Inventory(c) == RecordedVerified ==> Inspect(c, hash).Verified? || Inspect(c, hash) == Conflict
    ensures Inspect(c, hash) == Missing <==> Inventory(c) == RecordedMissing
    ensures Inspect(c, hash) == Orphaned <==> Inventory(c) == RecordedOrphaned
    ensures Inspect(c, hash) == Interrupted ==> Inventory(c) == RecordedInterrupted
  {
  }

  // ---------------------------------------------------------------- every answer, on the cache itself

  /** One regular file under this name and no other. */
  predicate OnlyNamed(c: Cache, name: Option<nat>, other: Option<nat>) {
    name.Some? && name.value in c.files && other != name
  }

  /** A record of verification by the pinned signer, for these paths and one archive digest. */
  predicate Attests(m: Metadata) {
    m.verified && m.signer == SIGNER && m.pathsMatch && m.actualArchive == m.authenticatedArchive
  }

  /** Both artifacts are there, each with exactly the digest that is recorded for it. */
  predicate Intact(c: Cache, m: Metadata, hash: Data -> Digest) {
    && c.archive.Some? && m.authenticatedArchive == Some(hash(c.archive.value))
    && OnlyNamed(c, c.prepared, c.extracted) && m.preparedDigest == Some(hash(c.files[c.prepared.value]))
  }

  predicate NothingBegun(c: Cache) {
    c.intent == None && c.metadataTemporary == None && c.roots == map[]
  }

  /** At most one extraction root, a directory, and an intent, if any, for these paths and a proper digest. */
  predicate Resumable(c: Cache) {
    && (c.roots == map[] || exists nonce :: nonce in c.roots && c.roots == map[nonce := true])
    && (c.intent == None
        || (c.intent.value.IntentRecord? && ValidDigest(c.intent.value.checksum)
            && c.intent.value == IntentRecord(true, true, c.intent.value.checksum)))
  }

  lemma AtMostOne(roots: map<nat, bool>)
    ensures |roots| <= 1 && (forall root :: root in roots ==> roots[root])
       <==> roots == map[] || exists nonce :: nonce in roots && roots == map[nonce := true]
  {
    if roots != map[] {
      var nonce :| nonce in roots;
      if |roots| == 1 {
        assert roots.Keys == {nonce} by {
          assert |roots.Keys - {nonce}| == 0;
        }
      }
    }
  }

  /** What a full inspection answers for every cache; everything else that is there is a conflict. */
  lemma InspectedIff(c: Cache, hash: Data -> Digest)
    ensures forall m :: Inspect(c, hash) == Verified(m)
              <==> c.metadata == Some(MetadataRecord(m)) && Attests(m) && Intact(c, m, hash)
    ensures Inspect(c, hash) == Missing <==> c.metadata == None && c.prepared == None && NothingBegun(c)
    ensures Inspect(c, hash) == Orphaned <==> c.metadata == None && OnlyNamed(c, c.prepared, c.extracted)
    ensures Inspect(c, hash) == Interrupted
       <==> c.metadata == None && c.prepared == None && !NothingBegun(c) && Resumable(c)
  {
    AtMostOne(c.roots);
  }

  /** What the inventory answers for every cache: it reads the record, and looks at no contents. */
  lemma InventoriedIff(c: Cache)
    ensures Inventory(c) == RecordedVerified
       <==> (&& c.metadata.Some? && c.metadata.value.MetadataRecord? && c.archive.Some?
             && OnlyNamed(c, c.prepared, c.extracted)
             && var m := c.metadata.value.metadata;
                && m.verified && m.pathsMatch && m.releaseMatches && m.architectureMatches && m.sourceMatches
                && m.authenticatedArchive.Some? && ValidDigest(m.authenticatedArchive.value)
                && m.actualArchive.Some? && ValidDigest(m.actualArchive.value)
                && m.preparedDigest.Some? && ValidDigest(m.preparedDigest.value))
    ensures Inventory(c) == Unreadable <==> c.metadata == Some(BrokenMetadata)
    ensures Inventory(c) == RecordedMissing <==> c.metadata == None && c.prepared == None && NothingBegun(c)
    ensures Inventory(c) == RecordedOrphaned <==> c.metadata == None && OnlyNamed(c, c.prepared, c.extracted)
    ensures Inventory(c) == RecordedInterrupted <==> c.metadata == None && c.prepared == None && !NothingBegun(c)
  {
  }
}
