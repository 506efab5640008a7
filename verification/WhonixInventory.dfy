/** The prepared gateway image: full inspection, which hashes and rebuilds provenance, and the cheap inventory. */
module WhonixInventory {
  import opened Results
  import opened Bundle
  import opened Provenance

  type Data = string

  datatype Artifact = Absent | Irregular | Regular(data: Data)

  datatype Metadata = Metadata(
    verified: bool, pathMatches: bool, preparedDigest: string, logicalBytes: nat, virtualBytes: nat, provenance: Record)

  datatype MetadataFile = NoMetadata | BrokenMetadata | MetadataRecord(metadata: Metadata)

  datatype Files = Files(
    intent: bool, metadataTemporary: bool, metadata: MetadataFile, prepared: Artifact, archive: Artifact)

  /** The digest function, and the virtual size read from an image's header, if it has one. */
  datatype Tools = Tools(hash: Data -> string, virtualSize: Data -> Option<nat>)

  datatype State = Missing | Preparing | Orphaned | Conflict | Verified | Failed

  predicate Official(p: Record) {
    && p.release == RELEASE && p.archiveName == ARCHIVE_NAME && p.sourceUrl == SOURCE_URL
    && p.signer == SIGNER && p.notation == NOTATION
  }

  /** Full inspection at some time; a virtual size that cannot be read fails the inspection itself. */
  function Inspect(f: Files, now: Seconds, tools: Tools): State {
    if f.intent || f.metadataTemporary then Preparing
    else if f.metadata.NoMetadata? then (if f.prepared.Absent? then Missing else Orphaned)
    else if f.prepared.Absent? then Preparing
    else if f.metadata.BrokenMetadata? then Conflict
    else
      var m := f.metadata.metadata;
      if || !m.verified || !m.pathMatches || !f.prepared.Regular? || !f.archive.Regular?
         || tools.hash(f.prepared.data) != m.preparedDigest || |f.prepared.data| != m.logicalBytes then Conflict
      else if tools.virtualSize(f.prepared.data).None? then Failed
      else if || tools.virtualSize(f.prepared.data).value != m.virtualBytes
              || tools.hash(f.archive.data) != m.provenance.archiveDigest
              || Rebuilt(m.provenance, now, tools.hash) != Success(m.provenance) || !Official(m.provenance) then
        Conflict
      else Verified
  }

  datatype Recorded =
    | RecordedMissing | RecordedPreparing | RecordedOrphaned | RecordedConflict | RecordedVerified | Unreadable

  function Inventory(f: Files): Recorded {
    if f.intent || f.metadataTemporary then RecordedPreparing
    else if f.metadata.NoMetadata? then (if f.prepared.Absent? then RecordedMissing else RecordedOrphaned)
    else if f.metadata.BrokenMetadata? then Unreadable
    else
      var m := f.metadata.metadata;
      if m.verified && m.pathMatches && Official(m.provenance) && f.archive.Regular? && f.prepared.Regular? then
        RecordedVerified
      else RecordedConflict
  }

  /** The artifacts are, byte for byte, what the metadata records. */
  predicate Intact(f: Files, tools: Tools)
    requires f.metadata.MetadataRecord? && f.prepared.Regular? && f.archive.Regular?
  {
    var m := f.metadata.metadata;
    && tools.hash(f.prepared.data) == m.preparedDigest && |f.prepared.data| == m.logicalBytes
    && tools.virtualSize(f.prepared.data) == Some(m.virtualBytes)
    && tools.hash(f.archive.data) == m.provenance.archiveDigest
  }

  /** Every answer of a full inspection, but for the image that is all right; anything else is a conflict. */
  lemma InspectedIff(f: Files, now: Seconds, tools: Tools)
    ensures Inspect(f, now, tools) == Preparing
       <==> f.intent || f.metadataTemporary || (f.metadata != NoMetadata && f.prepared == Absent)
    ensures Inspect(f, now, tools) == Missing
       <==> !f.intent && !f.metadataTemporary && f.metadata == NoMetadata && f.prepared == Absent
    ensures Inspect(f, now, tools) == Orphaned
       <==> !f.intent && !f.metadataTemporary && f.metadata == NoMetadata && f.prepared != Absent
    ensures Inspect(f, now, tools) == Failed
       <==> (&& !f.intent && !f.metadataTemporary && f.metadata.MetadataRecord? && f.prepared.Regular?
             && f.archive.Regular? && f.metadata.metadata.verified && f.metadata.metadata.pathMatches
             && tools.hash(f.prepared.data) == f.metadata.metadata.preparedDigest
             && |f.prepared.data| == f.metadata.metadata.logicalBytes && tools.virtualSize(f.prepared.data) == None)
  {
    hide Rebuilt, Official;
  }

  /** Every answer of the inventory, which reads the record and looks at no contents. */
  lemma InventoriedIff(f: Files)
    ensures Inventory(f) == RecordedPreparing <==> f.intent || f.metadataTemporary
    ensures Inventory(f) == RecordedMissing
       <==> !f.intent && !f.metadataTemporary && f.metadata == NoMetadata && f.prepared == Absent
    ensures Inventory(f) == RecordedOrphaned
       <==> !f.intent && !f.metadataTemporary && f.metadata == NoMetadata && f.prepared != Absent
    ensures Inventory(f) == Unreadable <==> !f.intent && !f.metadataTemporary && f.metadata == BrokenMetadata
    ensures Inventory(f) == RecordedVerified
       <==> (&& !f.intent && !f.metadataTemporary && f.prepared.Regular? && f.archive.Regular?
             && f.metadata.MetadataRecord?
             && var m := f.metadata.metadata;
                && m.verified && m.pathMatches && m.provenance.release == RELEASE
                && m.provenance.archiveName == ARCHIVE_NAME && m.provenance.sourceUrl == SOURCE_URL
                && m.provenance.signer == SIGNER && m.provenance.notation == NOTATION)
  {
    hide RELEASE, ARCHIVE_NAME, SOURCE_URL, SIGNER, NOTATION;
  }

  /**
   In every state of the files, full inspection refines the inventory: it says verified exactly when the
   inventory does, the artifacts are intact and the provenance rebuilds from its own fields.
   */
  lemma VerifiedIff(f: Files, now: Seconds, tools: Tools)
    ensures Inspect(f, now, tools) == Verified
       <==> (&& Inventory(f) == RecordedVerified && Intact(f, tools)
             && Rebuilt(f.metadata.metadata.provenance, now, tools.hash) == Success(f.metadata.metadata.provenance))
    ensures Inventory(f) == RecordedVerified ==> Inspect(f, now, tools) in {Verified, Conflict, Failed}
  {
    hide Rebuilt, Official;
  }

  /**
   An image whose provenance was built at one time and which nobody touches is verified at another
   time exactly if the signature does not then lie too far in the future: always later on, and not
   after the clock has been set back beyond the tolerated skew.
   */
  lemma StaysVerifiedIff(f: Files, tools: Tools, s: Signature, built: Seconds, artifacts: seq<Labelled>, now: Seconds)
    requires Inventory(f) == RecordedVerified && Intact(f, tools)
    requires BundleProvenance(s, built, f.metadata.metadata.provenance.archiveDigest, artifacts, tools.hash)
          == Success(f.metadata.metadata.provenance)
    ensures Inspect(f, now, tools) == Verified
       <==> f.metadata.metadata.provenance.signedAt <= SaturatingAdd(now, MAX_FUTURE_SKEW_SECONDS)
    ensures built <= now ==> Inspect(f, now, tools) == Verified
  {
    hide Inspect, Intact, BundleProvenance, Rebuilt, Official;
    VerifiedIff(f, now, tools);
    RebuildsIff(s, built, f.metadata.metadata.provenance.archiveDigest, artifacts, tools.hash,
                f.metadata.metadata.provenance, now);
  }
}
