/**
 Fetching and publishing the prepared image, step by step: after every step the process may be gone,
 and what is left then must be classified for what it is. Every step may fail before or after it has
 taken effect, and the fetched files and the extractor's behaviour are arbitrary.
 */
module KaliPublication {
  import opened Results
  import opened WriteFaults
  import opened Primitives
  import opened KaliState

  /** What an extraction leaves: the image if it succeeds, and the archive, which a faulty extractor may change. */
  datatype Extraction = ExtractionFails(partial: Option<Data>, archive: Data) | Extracts(image: Data, archive: Data)

  datatype Fetcher = Fetcher(archive: Data, sums: Data, signature: Data, key: Data, extract: Data -> Extraction)

  /** The digest function, signature verification, and the digest that authenticated sums list for the archive. */
  datatype Trust = Trust(hash: Data -> Digest, verifies: (Data, Data, Data) -> bool, listed: Data -> Option<Digest>)

  datatype FetchError =
    | RecoveryRequired | Io | BadSignature | NoChecksum | ChecksumMismatch | ExtractionFailed | ImageExists
    | PromotionFailed

  /** The device of the extraction root, and that of the image directory, if it is one. */
  datatype Site = Site(rootDevice: nat, imagesDevice: Option<nat>)

  /** A hard link can be made from the extraction root into the image directory. */
  predicate OneFilesystem(site: Site) {
    site.imagesDevice == Some(site.rootDevice)
  }

  /** Digests are 64 hexadecimal digits, and so is what the sums list. */
  ghost predicate WellFormed(t: Trust) {
    && (forall data :: ValidDigest(t.hash(data)))
    && (forall sums :: t.listed(sums).Some? ==> ValidDigest(t.listed(sums).value))
  }

  // ---------------------------------------------------------------- the stages of a fetch

  /** Nothing beyond downloads and a half-written intent. */
  predicate Downloading(c: Cache) {
    && c.intent.None? && c.roots == map[] && c.extracted.None? && c.prepared.None?
    && c.metadataTemporary.None? && c.metadata.None?
  }

  predicate Intends(c: Cache, digest: Digest) {
    c.intent == Some(IntentRecord(true, true, digest))
  }

  /** The intent is published; at most this fetch's own root exists, and a prepared image is a file. */
  predicate Preparing(c: Cache, digest: Digest, nonce: nat) {
    && Intends(c, digest) && c.metadata.None? && ValidDigest(digest)
    && (c.roots == map[] || c.roots == map[nonce := true])
    && (c.extracted.Some? ==> c.extracted.value in c.files)
    && (c.prepared.Some? ==> c.prepared.value in c.files)
    && (c.extracted.Some? && c.prepared.Some? ==> c.extracted == c.prepared)
  }

  /** The image is what the extractor made of an archive whose digest the signed sums list. */
  predicate Authentic(c: Cache, t: Trust, f: Fetcher) {
    && c.sums == Some(f.sums) && c.signature == Some(f.signature) && c.key == Some(f.key)
    && t.verifies(f.sums, f.signature, f.key)
    && t.listed(f.sums) == Some(t.hash(f.archive))
    && c.archive.Some? && t.hash(c.archive.value) == t.hash(f.archive)
    && c.prepared.Some? && c.prepared.value in c.files
    && f.extract(f.archive) == Extracts(c.files[c.prepared.value], c.archive.value)
  }

  function RecordOf(t: Trust, archive: Digest, image: Data): Metadata {
    Metadata(true, true, true, true, true, SIGNER, Some(archive), Some(archive), Some(t.hash(image)))
  }

  /** The metadata is published, for an authentic image. */
  predicate Published(c: Cache, t: Trust, f: Fetcher) {
    && Authentic(c, t, f) && c.roots == map[] && c.extracted.None?
    && c.metadata == Some(MetadataRecord(RecordOf(t, t.hash(f.archive), c.files[c.prepared.value])))
  }

  /** A failed fetch that has cleaned up: no intent and no root, but possibly an image already linked. */
  predicate CleanedUp(c: Cache) {
    && c.intent.None? && c.metadata.None? && c.metadataTemporary.None? && c.roots == map[] && c.extracted.None?
    && (c.prepared.Some? ==> c.prepared.value in c.files)
  }

  /** How each stage is classified. */
  lemma StagesAreClassified(c: Cache, t: Trust, f: Fetcher, digest: Digest, nonce: nat)
    ensures Downloading(c) ==> Inspect(c, t.hash) == Missing
    ensures Preparing(c, digest, nonce) ==>
              Inspect(c, t.hash)
              == if c.prepared.None? then Interrupted else if c.extracted.Some? then Conflict else Orphaned
    ensures Published(c, t, f) ==> Inspect(c, t.hash) == Verified(c.metadata.value.metadata)
    ensures CleanedUp(c) ==> Inspect(c, t.hash) == if c.prepared.None? then Missing else Orphaned
  {
  }

  /** Nothing but downloads is there when inspection says missing. */
  lemma MissingIsClean(c: Cache, hash: Data -> Digest)
    ensures Inspect(c, hash) == Missing && (c.extracted.Some? ==> c.roots != map[]) ==> Downloading(c)
  {
  }

  /** Every state left from one on, as long as it takes, is that of a fetch in preparation. */
  ghost predicate AllPreparing(trace: seq<Cache>, since: nat, digest: Digest, nonce: nat) {
    forall i :: since <= i < |trace| ==> Preparing(trace[i], digest, nonce)
  }

  lemma StillPreparing(a: seq<Cache>, b: seq<Cache>, since: nat, digest: Digest, nonce: nat)
    requires a <= b && AllPreparing(a, since, digest, nonce) && AllPreparing(b, |a|, digest, nonce)
    ensures AllPreparing(b, since, digest, nonce)
  {
    forall i | since <= i < |b| ensures Preparing(b[i], digest, nonce) {
      if i < |a| {
        assert b[i] == a[i];
      }
    }
  }

  lemma PreparingNow(trace: seq<Cache>, before: seq<Cache>, digest: Digest, nonce: nat)
    requires before != [] && before <= trace && AllPreparing(trace, |before|, digest, nonce)
    requires Preparing(before[|before| - 1], digest, nonce)
    ensures Preparing(trace[|trace| - 1], digest, nonce)
  {
  }

  // ---------------------------------------------------------------- the steps

  datatype Cause = Cause(fails: bool, error: FetchError)

  ghost predicate FirstCause(causes: seq<Cause>, k: int) {
    0 <= k < |causes| && causes[k].fails && forall i :: 0 <= i < k ==> !causes[i].fails
  }

  class Preparation {
    var cache: Cache
    ghost var trace: seq<Cache>
    var step: nat
    const faults: nat -> Fault
    const trust: Trust
    const fetcher: Fetcher
    const nonce: nat
    const inode: nat
    const site: Site

    ghost predicate Valid()
      reads this
    {
      trace != [] && trace[|trace| - 1] == cache
    }

    constructor (cache: Cache, faults: nat -> Fault, trust: Trust, fetcher: Fetcher, nonce: nat, inode: nat, site: Site)
      ensures Valid() && this.cache == cache && trace == [cache]
      ensures this.trust == trust && this.fetcher == fetcher && this.nonce == nonce && this.inode == inode
      ensures this.site == site && this.faults == faults && step == 0
    {
      this.cache, this.trace, this.step := cache, [cache], 0;
      this.faults, this.trust, this.fetcher := faults, trust, fetcher;
      this.nonce, this.inode, this.site := nonce, inode, site;
    }

    // -------------------------------------------------------------- which steps decide

    /** So many steps work, from this one on. */
    ghost predicate AllWork(first: nat, count: nat) {
      forall i :: first <= i < first + count ==> faults(i) == Works
    }

    /** The first few steps one by one. */
    lemma StepByStep(n: nat)
      ensures AllWork(n, 1) <==> faults(n) == Works
      ensures AllWork(n, 2) <==> AllWork(n, 1) && faults(n + 1) == Works
      ensures AllWork(n, 3) <==> AllWork(n, 2) && faults(n + 2) == Works
      ensures AllWork(n, 4) <==> AllWork(n, 3) && faults(n + 3) == Works
      ensures AllWork(n, 5) <==> AllWork(n, 4) && faults(n + 4) == Works
    {
    }

    lemma FirstStep(n: nat)
      ensures AllWork(n, 1) <==> faults(n) == Works
      ensures AllWork(n, 2) <==> faults(n) == Works && AllWork(n + 1, 1)
      ensures AllWork(n, 3) <==> faults(n) == Works && AllWork(n + 1, 2)
      ensures AllWork(n, 4) <==> faults(n) == Works && AllWork(n + 1, 3)
      ensures AllWork(n, 5) <==> faults(n) == Works && AllWork(n + 1, 4)
    {
    }

    ghost function Extraction(): Extraction {
      fetcher.extract(fetcher.archive)
    }

    /** The extractor delivers an image and leaves an archive with the digest it had. */
    ghost predicate ExtractsProperly() {
      Extraction().Extracts? && trust.hash(Extraction().archive) == trust.hash(fetcher.archive)
    }

    /** Something is extracted by this step, be it only in part. */
    ghost predicate Leaves(extract: nat) {
      faults(extract) != FailsBefore && (Extraction().Extracts? || Extraction().partial.Some?)
    }

    /** The image is about to be promoted after this extraction. */
    ghost predicate Promotes(extract: nat) {
      ExtractsProperly() && faults(extract) == Works && OneFilesystem(site)
    }

    /** Where removing the extraction root begins, for an extraction at this step. */
    ghost function CleaningAt(extract: nat): nat {
      if !Promotes(extract) || faults(extract + 1) != Works then extract + if Promotes(extract) then 2 else 1
      else if faults(extract + 2) != Works then extract + 3
      else if faults(extract + 3) != Works then extract + 4
      else if faults(extract + 4) != Works then extract + 7
      else extract + 6
    }

    /** How many steps it takes: one more while an extracted file is there. */
    ghost function CleaningSteps(extract: nat): nat {
      if !Promotes(extract) then (if Leaves(extract) then 3 else 2)
      else if AllWork(extract + 1, 3) && faults(extract + 4) != FailsBefore then 2
      else 3
    }

    ghost predicate Cleans(extract: nat) {
      AllWork(CleaningAt(extract), CleaningSteps(extract))
    }

    /** The first step of removing the intent of a failed preparation. */
    ghost function ClearingAt(extract: nat): nat {
      CleaningAt(extract) + CleaningSteps(extract)
    }

    /** What may go wrong in a fetch that begins at this step, in turn, each with its error. */
    ghost function Causes(n: nat): seq<Cause> {
      var digest := trust.hash(fetcher.archive);
      [Cause(!AllWork(n, 4), Io),
       Cause(!trust.verifies(fetcher.sums, fetcher.signature, fetcher.key), BadSignature),
       Cause(trust.listed(fetcher.sums) == None, NoChecksum),
       Cause(trust.listed(fetcher.sums) != Some(digest), ChecksumMismatch),
       Cause(!AllWork(n + 4, 4), Io),
       Cause(!AllWork(n + 8, 2), Io),
       Cause(Extraction().ExtractionFails? || faults(n + 10) != Works, ExtractionFailed),
       Cause(trust.hash(Extraction().archive) != digest, ChecksumMismatch),
       Cause(!OneFilesystem(site), PromotionFailed),
       Cause(!AllWork(n + 11, 5), Io),
       Cause(!AllWork(n + 16, 2), Io),
       Cause(!AllWork(n + 18, 4), Io),
       Cause(!AllWork(n + 22, 2), Io)]
    }

    /**
     The first cause decides the error of a fetch that begins at this step, but for a preparation that
     has failed: once its root is removed, so is the intent, and failing at that is reported instead.
     */
    ghost predicate Ends(n: nat, result: Result<Metadata, FetchError>) {
      && (result.Success? <==> forall k :: 0 <= k < |Causes(n)| ==> !Causes(n)[k].fails)
      && (forall k :: FirstCause(Causes(n), k) ==>
            result == Failure(if 6 <= k <= 9 && Cleans(n + 10) && !AllWork(ClearingAt(n + 10), 2) then Io
                              else Causes(n)[k].error))
    }

    // -------------------------------------------------------------- single steps

    /** One step: with its effect or without, and reported as success only with it. */
    method Take(next: Cache) returns (ok: bool)
      requires Valid()
      modifies this
      ensures Valid() && old(trace) <= trace && |trace| <= |old(trace)| + 1
      ensures step == old(step) + 1 && (ok <==> faults(old(step)) == Works)
      ensures cache == if faults(old(step)) == FailsBefore then old(cache) else next
      ensures forall i :: |old(trace)| <= i < |trace| ==> trace[i] == next
    {
      var fault := faults(step);
      step := step + 1;
      if fault == FailsBefore {
        return false;
      }
      cache := next;
      trace := trace + [next];
      ok := fault == Works;
    }

    /** Synchronising a file or a directory leaves no new state, but may fail. */
    method Synchronise() returns (ok: bool)
      requires Valid()
      modifies this`step
      ensures Valid() && step == old(step) + 1 && (ok <==> faults(old(step)) == Works)
    {
      ok := faults(step) == Works;
      step := step + 1;
    }

    /** Creates, writes and renames the intent; only from the rename on is there one. */
    method WriteIntent(digest: Digest) returns (ok: bool, ghost since: nat)
      requires Valid() && Downloading(cache) && ValidDigest(digest)
      modifies this
      ensures Valid() && old(trace) <= trace && |old(trace)| <= since <= |trace|
      ensures forall i :: |old(trace)| <= i < since ==> Downloading(trace[i])
      ensures AllPreparing(trace, since, digest, nonce)
      ensures ok ==>
                cache == old(cache).(intentTemporary := None, intent := cache.intent) && Preparing(cache, digest, nonce)
      ensures (ok <==> AllWork(old(step), 4)) && (ok ==> step == old(step) + 4)
    {
      StepByStep(step);
      hide AllWork;
      var record := IntentRecord(true, true, digest);
      ok := Take(cache.(intentTemporary := Some(BrokenIntent)));
      since := |trace|;
      if !ok { return; }
      ok := Take(cache.(intentTemporary := Some(record)));
      since := |trace|;
      if !ok { return; }
      ok := Take(cache.(intentTemporary := None, intent := Some(record)));
      if ok {
        ok := Synchronise();
      }
    }

    method CreateRoot(ghost digest: Digest) returns (ok: bool)
      requires Valid() && Preparing(cache, digest, nonce) && cache.roots == map[]
      modifies this
      ensures Valid() && old(trace) <= trace && AllPreparing(trace, |old(trace)|, digest, nonce)
      ensures cache == old(cache).(roots := cache.roots)
      ensures ok ==> cache.roots == map[nonce := true]
      ensures (ok <==> AllWork(old(step), 2)) && (ok ==> step == old(step) + 2)
    {
      StepByStep(step);
      hide AllWork;
      ok := Take(cache.(roots := map[nonce := true]));
      if ok {
        ok := Synchronise();
      }
    }

    /** Runs the extractor on the archive and re-reads the archive afterwards; the result is the image's digest. */
    method Extract(digest: Digest) returns (result: Result<Digest, FetchError>)
      requires Valid() && Preparing(cache, digest, nonce) && cache.roots == map[nonce := true]
      requires cache.archive.Some? && cache.extracted.None? && cache.prepared.None?
      modifies this
      ensures Valid() && old(trace) <= trace && AllPreparing(trace, |old(trace)|, digest, nonce)
      ensures cache == old(cache).(archive := cache.archive, extracted := cache.extracted, files := cache.files)
      ensures result.Success? ==>
                && cache.extracted == Some(inode) && inode in cache.files
                && result.value == trust.hash(cache.files[inode])
                && cache.archive.Some? && trust.hash(cache.archive.value) == digest
                && fetcher.extract(old(cache.archive.value)) == Extracts(cache.files[inode], cache.archive.value)
      ensures step == old(step) + 1
      ensures old(cache.archive) == Some(fetcher.archive) && digest == trust.hash(fetcher.archive) ==>
                && (cache.extracted.Some? <==> Leaves(old(step)))
                && (result.Success? <==> ExtractsProperly() && faults(old(step)) == Works)
                && (result.Failure? ==>
                      result.error == if Extraction().ExtractionFails? || faults(old(step)) != Works
                                      then ExtractionFailed else ChecksumMismatch)
    {
      var extraction := fetcher.extract(cache.archive.value);
      match extraction {
        case ExtractionFails(partial, archive) =>
          var left := cache.(archive := Some(archive));
          if partial.Some? {
            left := left.(extracted := Some(inode), files := left.files[inode := partial.value]);
          }
          var _ := Take(left);
          result := Failure(ExtractionFailed);
        case Extracts(image, archive) =>
          var files := cache.files[inode := image];
          var ok := Take(cache.(archive := Some(archive), extracted := Some(inode), files := files));
          if !ok || !SingleRegular(cache, cache.extracted) {
            result := Failure(ExtractionFailed);
          } else if trust.hash(cache.archive.value) != digest {
            result := Failure(ChecksumMismatch);
          } else {
            result := Success(trust.hash(cache.files[inode]));
          }
      }
    }

    /** Links the image to its final name. */
    method LinkImage(ghost digest: Digest) returns (ok: bool)
      requires Valid() && Preparing(cache, digest, nonce) && cache.roots == map[nonce := true]
      requires cache.extracted == Some(inode) && cache.prepared.None?
      modifies this
      ensures Valid() && old(trace) <= trace && AllPreparing(trace, |old(trace)|, digest, nonce)
      ensures cache == old(cache).(prepared := cache.prepared) && (ok ==> cache.prepared == Some(inode))
      ensures (ok <==> AllWork(old(step), 2)) && step == old(step) + if !AllWork(old(step), 1) then 1 else 2
      ensures Preparing(cache, digest, nonce)
    {
      StepByStep(step);
      hide AllWork;
      ok := Take(cache.(prepared := cache.extracted));
      if ok {
        ok := Synchronise();
      }
    }

    /** Unlinks the extracted name; failing at that removes the new one again. */
    method UnlinkExtracted(ghost digest: Digest) returns (ok: bool)
      requires Valid() && Preparing(cache, digest, nonce) && cache.roots == map[nonce := true]
      requires cache.extracted == cache.prepared == Some(inode)
      modifies this
      ensures Valid() && old(trace) <= trace && AllPreparing(trace, |old(trace)|, digest, nonce)
      ensures cache == old(cache).(extracted := cache.extracted, prepared := cache.prepared)
      ensures ok ==> cache.extracted.None? && cache.prepared == Some(inode)
      ensures ok <==> AllWork(old(step), 2)
      ensures cache.extracted.None? <==> faults(old(step)) != FailsBefore
      ensures faults(old(step)) != Works && faults(old(step) + 1) != FailsBefore ==> cache.prepared.None?
      ensures step == old(step) + if !AllWork(old(step), 1) then 3 else 2
    {
      StepByStep(step);
      hide AllWork;
      ok := Take(cache.(extracted := None));
      if !ok {
        var _ := Take(cache.(prepared := None));
        var _ := Synchronise();
        return false;
      }
      ok := Synchronise();
    }

    /** Links the image to its final name and unlinks the extracted one. */
    method Relink(ghost digest: Digest) returns (ok: bool)
      requires Valid() && Preparing(cache, digest, nonce) && cache.roots == map[nonce := true]
      requires cache.extracted == Some(inode) && cache.prepared.None?
      modifies this
      ensures Valid() && old(trace) <= trace && AllPreparing(trace, |old(trace)|, digest, nonce)
      ensures cache == old(cache).(extracted := cache.extracted, prepared := cache.prepared)
      ensures ok ==> cache.extracted.None? && cache.prepared == Some(inode)
      ensures ok <==> AllWork(old(step), 4)
      ensures cache.extracted.None? <==> AllWork(old(step), 2) && faults(old(step) + 2) != FailsBefore
      ensures AllWork(old(step), 2) && faults(old(step) + 2) != Works && faults(old(step) + 3) != FailsBefore ==>
                cache.prepared.None?
      ensures step == old(step) + if !AllWork(old(step), 1) then 1 else if !AllWork(old(step), 2) then 2
                                  else if !AllWork(old(step), 3) then 5 else 4
    {
      ghost var n, before := step, trace;
      ok := LinkImage(digest);
      ghost var linked := trace;
      if !ok { return; }
      ok := UnlinkExtracted(digest);
      StillPreparing(linked, trace, |before|, digest, nonce);
    }

    /** The last part of a promotion: the image under its final name is one regular file with the expected digest. */
    method RelinkAndCheck(expected: Digest, ghost digest: Digest) returns (result: Result<(), FetchError>)
      requires Valid() && Preparing(cache, digest, nonce) && cache.roots == map[nonce := true]
      requires cache.extracted == Some(inode) && cache.prepared.None? && inode in cache.files
      modifies this
      ensures Valid() && old(trace) <= trace && AllPreparing(trace, |old(trace)|, digest, nonce)
      ensures cache == old(cache).(extracted := cache.extracted, prepared := cache.prepared)
      ensures result.Success? ==> cache.extracted.None? && cache.prepared == Some(inode)
      ensures result
           == if !AllWork(old(step), 4) then Failure(Io)
              else if trust.hash(old(cache.files)[inode]) == expected then Success(()) else Failure(ChecksumMismatch)
      ensures cache.extracted.None? <==> AllWork(old(step), 2) && faults(old(step) + 2) != FailsBefore
      ensures AllWork(old(step), 2) && faults(old(step) + 2) != Works && faults(old(step) + 3) != FailsBefore ==>
                cache.prepared.None?
      ensures step == old(step) + if !AllWork(old(step), 1) then 1 else if !AllWork(old(step), 2) then 2
                                  else if !AllWork(old(step), 3) then 5 else 4
    {
      hide AllWork, AllPreparing, Preparing;
      var ok := Relink(digest);
      if !ok {
        return Failure(Io);
      }
      if !SingleRegular(cache, cache.prepared) {
        return Failure(PromotionFailed);
      }
      if trust.hash(cache.files[cache.prepared.value]) != expected {
        return Failure(ChecksumMismatch);
      }
      result := Success(());
    }

    /** Links the image to its final name, refusing to overwrite, unlinks the extracted name, and re-reads the image. */
    method Promote(expected: Digest, ghost digest: Digest) returns (result: Result<(), FetchError>)
      requires Valid() && Preparing(cache.(prepared := None), digest, nonce) && cache.roots == map[nonce := true]
      requires cache.extracted == Some(inode)
      modifies this
      ensures Valid() && old(trace) <= trace && AllPreparing(trace, |old(trace)|, digest, nonce)
      ensures cache == old(cache).(extracted := cache.extracted, prepared := cache.prepared)
      ensures result.Success? ==>
                cache.extracted.None? && cache.prepared == Some(inode) && trust.hash(cache.files[inode]) == expected
      ensures old(cache.prepared).Some? ==> result.Failure? && trace == old(trace) && cache == old(cache)
      ensures old(cache.prepared).Some? && old(cache.prepared) != Some(inode) && OneFilesystem(site) ==>
                result == Failure(ImageExists) || result == Failure(Io)
      ensures result == Failure(ImageExists) ==> old(cache.prepared).Some?
      ensures !OneFilesystem(site) ==>
                result == Failure(PromotionFailed) && trace == old(trace) && cache == old(cache) && step == old(step)
      ensures OneFilesystem(site) && old(cache.prepared).None? ==>
                && (result.Success? <==> AllWork(old(step), 5) && trust.hash(old(cache.files)[inode]) == expected)
                && (result.Failure? ==> result.error == if AllWork(old(step), 5) then ChecksumMismatch else Io)
                && (cache.extracted.None? <==> AllWork(old(step), 3) && faults(old(step) + 3) != FailsBefore)
                && (AllWork(old(step), 3) && faults(old(step) + 3) != Works && faults(old(step) + 4) != FailsBefore ==>
                      cache.prepared.None?)
                && step == old(step)
                           + if !AllWork(old(step), 1) then 1 else if !AllWork(old(step), 2) then 2
                             else if !AllWork(old(step), 3) then 3 else if !AllWork(old(step), 4) then 6 else 5
      ensures OneFilesystem(site) && old(cache.prepared).Some? ==>
                result == Failure(if old(cache.prepared) == Some(inode) then PromotionFailed
                                  else if faults(old(step)) == Works then ImageExists else Io)
    {
      FirstStep(step);
      assert cache.prepared.None? ==> cache.(prepared := None) == cache;
      hide AllWork, AllPreparing, Preparing;
      if !SingleRegular(cache, cache.extracted) || !OneFilesystem(site) {
        return Failure(PromotionFailed);
      }
      var ok := Synchronise();
      if !ok {
        return Failure(Io);
      }
      if cache.prepared.Some? {
        return Failure(ImageExists);
      }
      result := RelinkAndCheck(expected, digest);
    }

    /** Removes the extraction root and what is in it. */
    method CleanUpRoot(ghost digest: Digest) returns (ok: bool)
      requires Valid() && Preparing(cache, digest, nonce) && cache.roots == map[nonce := true]
      modifies this
      ensures Valid() && old(trace) <= trace && AllPreparing(trace, |old(trace)|, digest, nonce)
      ensures cache == old(cache).(extracted := cache.extracted, roots := cache.roots)
      ensures ok ==> cache.extracted.None? && cache.roots == map[]
      ensures ok <==> AllWork(old(step), if old(cache.extracted).Some? then 3 else 2)
      ensures ok ==> step == old(step) + if old(cache.extracted).Some? then 3 else 2
    {
      StepByStep(step);
      hide AllWork;
      if cache.extracted.Some? {
        ok := Take(cache.(extracted := None));
        if !ok { return; }
      }
      ok := Take(cache.(roots := map[]));
      if ok {
        ok := Synchronise();
      }
    }

    method ClearIntent() returns (ok: bool)
      requires Valid() && cache.intent.Some?
      modifies this
      ensures Valid() && old(trace) <= trace && |trace| <= |old(trace)| + 1
      ensures forall i :: |old(trace)| <= i < |trace| ==> trace[i] == old(cache).(intent := None)
      ensures cache == old(cache) || cache == old(cache).(intent := None)
      ensures (ok <==> AllWork(old(step), 2)) && (cache.intent.None? <==> faults(old(step)) != FailsBefore)
    {
      StepByStep(step);
      hide AllWork;
      ok := Take(cache.(intent := None));
      if ok {
        ok := Synchronise();
      }
    }

    /** Creates, writes and renames the metadata; only from the rename on is the image published. */
    method WriteMetadata(digest: Digest) returns (ok: bool, ghost published: nat)
      requires Valid() && Preparing(cache, digest, nonce) && cache.roots == map[] && cache.extracted.None?
      requires Authentic(cache, trust, fetcher) && digest == trust.hash(fetcher.archive)
      modifies this
      ensures Valid() && old(trace) <= trace && |old(trace)| <= published <= |trace|
      ensures forall i :: |old(trace)| <= i < published ==> Preparing(trace[i], digest, nonce)
      ensures forall i :: published <= i < |trace| ==> Published(trace[i], trust, fetcher) && trace[i].intent.Some?
      ensures cache == old(cache).(metadataTemporary := cache.metadataTemporary, metadata := cache.metadata)
      ensures ok ==> published < |trace| && cache.metadataTemporary.None?
      ensures (ok <==> AllWork(old(step), 4)) && (ok ==> step == old(step) + 4)
    {
      StepByStep(step);
      hide AllWork;
      var record := MetadataRecord(RecordOf(trust, digest, cache.files[cache.prepared.value]));
      ok := Take(cache.(metadataTemporary := Some(BrokenMetadata)));
      published := |trace|;
      if !ok { return; }
      ok := Take(cache.(metadataTemporary := Some(record)));
      published := |trace|;
      if !ok { return; }
      ok := Take(cache.(metadataTemporary := None, metadata := Some(record)));
      if ok {
        ok := Synchronise();
      }
    }

    /** Downloads the archive, the sums, their signature and the key, one after the other. */
    method Download() returns (ok: bool)
      requires Valid() && Downloading(cache)
      modifies this
      ensures Valid() && old(trace) <= trace
      ensures forall i :: |old(trace)| <= i < |trace| ==> Downloading(trace[i])
      ensures Downloading(cache) && cache.files == old(cache.files)
      ensures ok ==> cache.archive == Some(fetcher.archive) && cache.sums == Some(fetcher.sums)
                     && cache.signature == Some(fetcher.signature) && cache.key == Some(fetcher.key)
      ensures (ok <==> AllWork(old(step), 4)) && (ok ==> step == old(step) + 4)
    {
      StepByStep(step);
      hide AllWork;
      ok := Take(cache.(archive := Some(fetcher.archive)));
      if !ok { return; }
      ok := Take(cache.(sums := Some(fetcher.sums)));
      if !ok { return; }
      ok := Take(cache.(signature := Some(fetcher.signature)));
      if !ok { return; }
      ok := Take(cache.(key := Some(fetcher.key)));
    }

    /** Authenticates the downloads: the archive's digest is listed in sums that are properly signed. */
    method Authenticate() returns (result: Result<Digest, FetchError>)
      requires cache.archive.Some? && cache.sums.Some? && cache.signature.Some? && cache.key.Some?
      ensures result.Success? <==>
                && trust.verifies(cache.sums.value, cache.signature.value, cache.key.value)
                && trust.listed(cache.sums.value) == Some(trust.hash(cache.archive.value))
      ensures result.Success? ==> result.value == trust.hash(cache.archive.value)
      ensures result.Failure? ==>
                result.error == if !trust.verifies(cache.sums.value, cache.signature.value, cache.key.value)
                                then BadSignature
                                else if trust.listed(cache.sums.value) == None then NoChecksum else ChecksumMismatch
    {
      if !trust.verifies(cache.sums.value, cache.signature.value, cache.key.value) {
        return Failure(BadSignature);
      }
      var expected := trust.listed(cache.sums.value);
      if expected.None? {
        return Failure(NoChecksum);
      }
      var actual := trust.hash(cache.archive.value);
      result := if expected.value == actual then Success(actual) else Failure(ChecksumMismatch);
    }

    /** How a preparation ends whose extraction is at this step. */
    ghost predicate PreparationEnds(extract: nat, result: Result<Digest, FetchError>) {
      && (result.Success? <==> Promotes(extract) && AllWork(extract + 1, 5))
      && (result.Failure? ==>
            result.error == if Extraction().ExtractionFails? || faults(extract) != Works then ExtractionFailed
                            else if trust.hash(Extraction().archive) != trust.hash(fetcher.archive)
                            then ChecksumMismatch
                            else if !OneFilesystem(site) then PromotionFailed
                            else Io)
    }

    /** Where a preparation is left for cleaning, by what stopped it. */
    lemma CleaningFits(extract: nat)
      ensures !Promotes(extract) ==>
                CleaningAt(extract) == extract + 1 && CleaningSteps(extract) == if Leaves(extract) then 3 else 2
      ensures Promotes(extract) ==>
                && CleaningAt(extract)
                   == extract + 1
                      + (if !AllWork(extract + 1, 1) then 1 else if !AllWork(extract + 1, 2) then 2
                         else if !AllWork(extract + 1, 3) then 3 else if !AllWork(extract + 1, 4) then 6 else 5)
                && CleaningSteps(extract)
                   == if AllWork(extract + 1, 3) && faults(extract + 4) != FailsBefore then 2 else 3
      ensures ExtractsProperly() && faults(extract) == Works ==> Leaves(extract)
      ensures CleaningSteps(extract) == 2 || CleaningSteps(extract) == 3
    {
      hide OneFilesystem;
    }

    /** Extraction and promotion, with the digest of the promoted image. */
    method Prepare(digest: Digest) returns (result: Result<Digest, FetchError>)
      requires Valid() && Preparing(cache, digest, nonce) && cache.roots == map[nonce := true]
      requires cache.archive == Some(fetcher.archive) && cache.extracted.None? && cache.prepared.None?
      modifies this
      ensures Valid() && old(trace) <= trace && AllPreparing(trace, |old(trace)|, digest, nonce)
      ensures cache == old(cache).(archive := cache.archive, extracted := cache.extracted, prepared := cache.prepared,
                                   files := cache.files)
      ensures result.Success? ==>
                && cache.extracted.None? && cache.prepared == Some(inode)
                && cache.archive.Some? && trust.hash(cache.archive.value) == digest
                && fetcher.extract(fetcher.archive) == Extracts(cache.files[inode], cache.archive.value)
                && result.value == trust.hash(cache.files[inode]) && OneFilesystem(site)
      ensures digest == trust.hash(fetcher.archive) ==>
                && PreparationEnds(old(step), result)
                && step == CleaningAt(old(step)) && (cache.extracted.Some? <==> CleaningSteps(old(step)) == 3)
    {
      CleaningFits(step);
      hide AllWork, CleaningAt, CleaningSteps, Leaves, Preparing, AllPreparing;
      result := Extract(digest);
      if result.Success? {
        ghost var extracted := trace;
        var promoted := Promote(result.value, digest);
        StillPreparing(extracted, trace, |old(trace)|, digest, nonce);
        if promoted.Failure? {
          result := Failure(promoted.error);
        }
      }
    }

    /** Extraction in a root of its own, which is removed again; also whether that worked. */
    method PrepareInRoot(digest: Digest) returns (result: Result<Digest, FetchError>, cleaned: bool)
      requires Valid() && Preparing(cache, digest, nonce) && cache.roots == map[]
      requires cache.archive == Some(fetcher.archive) && cache.extracted.None? && cache.prepared.None?
      modifies this
      ensures Valid() && old(trace) <= trace && AllPreparing(trace, |old(trace)|, digest, nonce)
      ensures cache == old(cache).(archive := cache.archive, extracted := cache.extracted, prepared := cache.prepared,
                                   files := cache.files, roots := cache.roots)
      ensures Preparing(cache, digest, nonce)
      ensures cleaned ==> cache.extracted.None? && cache.roots == map[]
      ensures result.Success? ==> OneFilesystem(site)
      ensures result.Success? && cleaned ==>
                && cache.prepared == Some(inode) && inode in cache.files
                && cache.archive.Some? && trust.hash(cache.archive.value) == digest
                && fetcher.extract(fetcher.archive) == Extracts(cache.files[inode], cache.archive.value)
      ensures digest == trust.hash(fetcher.archive) ==>
                if !AllWork(old(step), 2) then result == Failure(Io) && !cleaned
                else
                  && PreparationEnds(old(step) + 2, result) && (cleaned <==> Cleans(old(step) + 2))
                  && (cleaned ==> step == ClearingAt(old(step) + 2))
    {
      hide Preparing, AllPreparing, AllWork, CleaningAt, CleaningSteps, Leaves, PreparationEnds;
      CleaningFits(step + 2);
      var rooted := CreateRoot(digest);
      ghost var first := trace;
      if !rooted {
        PreparingNow(trace, old(trace), digest, nonce);
        return Failure(Io), false;
      }
      PreparingNow(trace, old(trace), digest, nonce);
      result := Prepare(digest);
      ghost var second := trace;
      StillPreparing(first, second, |old(trace)|, digest, nonce);
      PreparingNow(trace, old(trace), digest, nonce);
      cleaned := CleanUpRoot(digest);
      StillPreparing(second, trace, |old(trace)|, digest, nonce);
      PreparingNow(trace, old(trace), digest, nonce);
    }

    /** The preparation of a completion that begins at this step fails in its root. */
    ghost predicate GivesUp(n: nat) {
      AllWork(n, 2) && !(Promotes(n + 2) && AllWork(n + 3, 5))
    }

    /** How a completion ends that begins at this step. */
    ghost predicate CompletionEnds(n: nat, result: Result<Metadata, FetchError>) {
      if GivesUp(n) then
        && result.Failure?
        && if Cleans(n + 2) && !AllWork(ClearingAt(n + 2), 2) then result.error == Io
           else PreparationEnds(n + 2, Failure(result.error))
      else
        && (result.Success? <==> AllWork(n, 2) && AllWork(n + 8, 2) && AllWork(n + 10, 4) && AllWork(n + 14, 2))
        && (result.Failure? ==> result.error == Io)
    }

    /**
     From the published intent to the published image. The intent is removed when a failed preparation
     has been cleaned up, or else after the metadata is published: no state in between is without one.
     */
    method Complete(digest: Digest) returns (result: Result<Metadata, FetchError>, ghost published: nat)
      requires Valid() && Preparing(cache, digest, nonce) && cache.roots == map[]
      requires digest == trust.hash(fetcher.archive)
      requires cache.archive == Some(fetcher.archive) && cache.extracted.None? && cache.prepared.None?
      requires cache.metadataTemporary.None?
      requires cache.sums == Some(fetcher.sums) && cache.signature == Some(fetcher.signature)
      requires cache.key == Some(fetcher.key)
      requires trust.verifies(fetcher.sums, fetcher.signature, fetcher.key)
      requires trust.listed(fetcher.sums) == Some(digest)
      modifies this
      ensures Valid() && old(trace) <= trace && |old(trace)| <= published <= |trace|
      ensures forall i :: |old(trace)| <= i < published ==>
                Preparing(trace[i], digest, nonce) || (i == |trace| - 1 && result.Failure? && CleanedUp(trace[i]))
      ensures forall i :: published <= i < |trace| ==> Published(trace[i], trust, fetcher)
      ensures published < |trace| ==> OneFilesystem(site)
      ensures result.Success? ==>
                published < |trace| && cache.intent.None? && cache.metadata == Some(MetadataRecord(result.value))
      ensures CompletionEnds(old(step), result)
      ensures GivesUp(old(step)) ==>
                if Cleans(old(step) + 2) && faults(ClearingAt(old(step) + 2)) != FailsBefore then CleanedUp(cache)
                else Intends(cache, digest) && cache.metadata.None?
    {
      var prepared, cleaned := PrepareInRoot(digest);
      ghost var third := trace;
      published := |trace|;
      if prepared.Failure? {
        if cleaned {
          var cleared := ClearIntent();
          published := |trace|;
          assert forall i :: |old(trace)| <= i < |third| ==> trace[i] == third[i];
          if !cleared {
            return Failure(Io), published;
          }
        }
        return Failure(prepared.error), published;
      }
      if !cleaned {
        return Failure(Io), published;
      }
      result, published := Record(digest);
      assert forall i :: |old(trace)| <= i < |third| ==> trace[i] == third[i];
    }

    /** Publishes the metadata of an authentic image, then removes the intent. */
    method Record(digest: Digest) returns (result: Result<Metadata, FetchError>, ghost published: nat)
      requires Valid() && Preparing(cache, digest, nonce) && cache.roots == map[] && cache.extracted.None?
      requires Authentic(cache, trust, fetcher) && digest == trust.hash(fetcher.archive)
      modifies this
      ensures Valid() && old(trace) <= trace && |old(trace)| <= published <= |trace|
      ensures forall i :: |old(trace)| <= i < published ==> Preparing(trace[i], digest, nonce)
      ensures forall i :: published <= i < |trace| ==> Published(trace[i], trust, fetcher)
      ensures result.Success? ==>
                published < |trace| && cache.intent.None? && cache.metadata == Some(MetadataRecord(result.value))
      ensures result.Success? <==> AllWork(old(step), 4) && AllWork(old(step) + 4, 2)
      ensures result.Failure? ==> result.error == Io
    {
      var written;
      written, published := WriteMetadata(digest);
      ghost var recorded := trace;
      if !written {
        return Failure(Io), published;
      }
      var cleared := ClearIntent();
      assert forall i :: |old(trace)| <= i < |recorded| ==> trace[i] == recorded[i];
      result := if cleared then Success(RecordOf(trust, digest, cache.files[cache.prepared.value])) else Failure(Io);
    }

    /** The causes in turn, from what each part of a fetch has answered. */
    lemma Ending(n: nat, result: Result<Metadata, FetchError>)
      requires if !AllWork(n, 4) then result == Failure(Io)
               else if !trust.verifies(fetcher.sums, fetcher.signature, fetcher.key) then
                 result == Failure(BadSignature)
               else if trust.listed(fetcher.sums) == None then result == Failure(NoChecksum)
               else if trust.listed(fetcher.sums) != Some(trust.hash(fetcher.archive)) then
                 result == Failure(ChecksumMismatch)
               else if !AllWork(n + 4, 4) then result == Failure(Io)
               else CompletionEnds(n + 8, result)
      ensures Ends(n, result)
    {
      CausesAre(n);
      FirstOfThirteen(Causes(n));
      hide AllWork, Cleans, CleaningAt, CleaningSteps, Causes, FirstCause, Extraction, OneFilesystem, Leaves;
    }

    lemma CausesAre(n: nat)
      ensures var causes, digest := Causes(n), trust.hash(fetcher.archive);
              && |causes| == 13
              && causes[0] == Cause(!AllWork(n, 4), Io)
              && causes[1] == Cause(!trust.verifies(fetcher.sums, fetcher.signature, fetcher.key), BadSignature)
              && causes[2] == Cause(trust.listed(fetcher.sums) == None, NoChecksum)
              && causes[3] == Cause(trust.listed(fetcher.sums) != Some(digest), ChecksumMismatch)
              && causes[4] == Cause(!AllWork(n + 4, 4), Io) && causes[5] == Cause(!AllWork(n + 8, 2), Io)
              && causes[6] == Cause(Extraction().ExtractionFails? || faults(n + 10) != Works, ExtractionFailed)
              && causes[7] == Cause(trust.hash(Extraction().archive) != digest, ChecksumMismatch)
              && causes[8] == Cause(!OneFilesystem(site), PromotionFailed)
              && causes[9] == Cause(!AllWork(n + 11, 5), Io) && causes[10] == Cause(!AllWork(n + 16, 2), Io)
              && causes[11] == Cause(!AllWork(n + 18, 4), Io) && causes[12] == Cause(!AllWork(n + 22, 2), Io)
    {
      hide AllWork, Extraction, OneFilesystem;
    }

    /** The first of a fixed number of causes. */
    lemma FirstOfThirteen(c: seq<Cause>)
      requires |c| == 13
      ensures forall k :: FirstCause(c, k) ==>
                && c[k].fails
                && k == if c[0].fails then 0 else if c[1].fails then 1 else if c[2].fails then 2
                        else if c[3].fails then 3 else if c[4].fails then 4 else if c[5].fails then 5
                        else if c[6].fails then 6 else if c[7].fails then 7 else if c[8].fails then 8
                        else if c[9].fails then 9 else if c[10].fails then 10 else if c[11].fails then 11 else 12
      ensures (forall k :: 0 <= k < |c| ==> !c[k].fails)
         <==> !(|| c[0].fails || c[1].fails || c[2].fails || c[3].fails || c[4].fails || c[5].fails || c[6].fails
                || c[7].fails || c[8].fails || c[9].fails || c[10].fails || c[11].fails || c[12].fails)
    {
    }

    lemma CausesAreNamed(n: nat)
      ensures forall k :: 0 <= k < |Causes(n)| ==> Causes(n)[k].error != RecoveryRequired
    {
      hide AllWork;
    }

    /** That recovery is required is no error of a fetch that begins. */
    lemma NeverRecovery(n: nat, result: Result<Metadata, FetchError>)
      requires Ends(n, result)
      ensures result != Failure(RecoveryRequired)
    {
      CausesAreNamed(n);
      hide AllWork, Cleans, ClearingAt, Causes;
      if exists k :: 0 <= k < |Causes(n)| && Causes(n)[k].fails {
        FirstCauseExists(Causes(n), 0);
      }
    }

    lemma FirstCauseExists(causes: seq<Cause>, from: nat)
      requires from <= |causes| && forall i :: 0 <= i < from ==> !causes[i].fails
      requires exists k :: 0 <= k < |causes| && causes[k].fails
      ensures exists k :: FirstCause(causes, k)
      decreases |causes| - from
    {
      if causes[from].fails {
        assert FirstCause(causes, from);
      } else {
        FirstCauseExists(causes, from + 1);
      }
    }

    /**
     What a failed fetch leaves: downloads alone as long as these are not authentic, and after giving up
     in its extraction root no intent, which goes last and only once the root is gone.
     */
    ghost predicate LeavesOff(n: nat)
      reads this
    {
      && (!AllWork(n, 4) || !Authenticated() ==> Downloading(cache))
      && forall k :: FirstCause(Causes(n), k) && 6 <= k <= 9 ==>
           if Cleans(n + 10) && faults(ClearingAt(n + 10)) != FailsBefore then CleanedUp(cache)
           else Intends(cache, trust.hash(fetcher.archive)) && cache.metadata.None?
    }

    lemma LeavingOff(n: nat)
      requires !AllWork(n, 4) || !Authenticated() ==> Downloading(cache)
      requires (&& AllWork(n, 4) && Authenticated() && AllWork(n + 4, 4) && GivesUp(n + 8)) ==>
                 if Cleans(n + 10) && faults(ClearingAt(n + 10)) != FailsBefore then CleanedUp(cache)
                 else Intends(cache, trust.hash(fetcher.archive)) && cache.metadata.None?
      ensures LeavesOff(n)
    {
      hide AllWork, Cleans, CleaningAt, CleaningSteps, CleanedUp, Intends;
      var causes := Causes(n);
      forall k | FirstCause(causes, k) && 6 <= k <= 9
        ensures AllWork(n, 4) && Authenticated() && AllWork(n + 4, 4) && GivesUp(n + 8)
      {
        assert !causes[0].fails && !causes[1].fails && !causes[3].fails && !causes[4].fails && !causes[5].fails;
      }
    }

    /** What is wrong with the files or what is made of them, the first reason first. */
    ghost function Refusal(): FetchError {
      if !trust.verifies(fetcher.sums, fetcher.signature, fetcher.key) then BadSignature
      else if trust.listed(fetcher.sums) == None then NoChecksum
      else if !Authenticated() then ChecksumMismatch
      else if Extraction().ExtractionFails? then ExtractionFailed
      else if !ExtractsProperly() then ChecksumMismatch
      else PromotionFailed
    }

    lemma CausesWithoutFaults(n: nat)
      requires forall i :: faults(i) == Works
      ensures forall k :: FirstCause(Causes(n), k) ==> Causes(n)[k].error == Refusal() && (k < 4 ==> !Authenticated())
      ensures (exists k :: 0 <= k < |Causes(n)| && Causes(n)[k].fails)
         <==> !(Authenticated() && ExtractsProperly() && OneFilesystem(site))
      ensures Cleans(n + 10) && AllWork(ClearingAt(n + 10), 2)
    {
      CausesAre(n);
      FirstOfThirteen(Causes(n));
      CleansWithoutFaults(n + 10);
      hide Cleans, Leaves, CleaningAt, CleaningSteps, OneFilesystem, Causes, FirstCause;
    }

    lemma CleansWithoutFaults(extract: nat)
      requires forall i :: faults(i) == Works
      ensures Cleans(extract) && AllWork(ClearingAt(extract), 2)
    {
    }

    /** When no step fails: success, or the first reason for refusing the files or what is made of them. */
    lemma WithoutFaults(n: nat, result: Result<Metadata, FetchError>)
      requires Ends(n, result) && forall i :: faults(i) == Works
      ensures result.Success? <==> Authenticated() && ExtractsProperly() && OneFilesystem(site)
      ensures result.Failure? ==> result.error == Refusal()
      ensures LeavesOff(n) && Authenticated() && result.Failure? ==> CleanedUp(cache)
    {
      CausesWithoutFaults(n);
      CleansWithoutFaults(n + 10);
      hide CleanedUp, Intends, Causes, Refusal, Cleans, ClearingAt, Authenticated, ExtractsProperly, OneFilesystem;
      if exists k :: 0 <= k < |Causes(n)| && Causes(n)[k].fails {
        FirstCauseExists(Causes(n), 0);
      }
    }

    /** What is authentic once the downloads are: the sums are signed and list the archive's digest. */
    ghost predicate Authenticated() {
      && trust.verifies(fetcher.sums, fetcher.signature, fetcher.key)
      && trust.listed(fetcher.sums) == Some(trust.hash(fetcher.archive))
    }

    /** The intent for an authenticated archive, and the preparation that it announces. */
    method Begin(digest: Digest) returns (result: Result<Metadata, FetchError>, ghost since: nat, ghost published: nat)
      requires Valid() && Downloading(cache) && Authenticated() && digest == trust.hash(fetcher.archive)
      requires cache.archive == Some(fetcher.archive) && cache.sums == Some(fetcher.sums) && ValidDigest(digest)
      requires cache.signature == Some(fetcher.signature) && cache.key == Some(fetcher.key)
      modifies this
      ensures Valid() && old(trace) <= trace && |old(trace)| <= since <= published <= |trace|
      ensures forall i :: |old(trace)| <= i < since ==> Downloading(trace[i])
      ensures forall i :: since <= i < published ==>
                || Preparing(trace[i], digest, nonce)
                || (i == |trace| - 1 && result.Failure? && CleanedUp(trace[i]))
      ensures forall i :: published <= i < |trace| ==> Published(trace[i], trust, fetcher)
      ensures published < |trace| ==> OneFilesystem(site)
      ensures result.Success? ==>
                published < |trace| && cache.intent.None? && cache.metadata == Some(MetadataRecord(result.value))
      ensures if !AllWork(old(step), 4) then result == Failure(Io) else CompletionEnds(old(step) + 4, result)
      ensures AllWork(old(step), 4) && GivesUp(old(step) + 4) ==>
                if Cleans(old(step) + 6) && faults(ClearingAt(old(step) + 6)) != FailsBefore then CleanedUp(cache)
                else Intends(cache, digest) && cache.metadata.None?
    {
      hide Published, CleanedUp, CompletionEnds, GivesUp, AllWork;
      var intended;
      intended, since := WriteIntent(digest);
      ghost var second := trace;
      published := |trace|;
      if !intended {
        return Failure(Io), since, published;
      }
      result, published := Complete(digest);
      assert forall i :: |old(trace)| <= i < |second| ==> trace[i] == second[i];
    }

    /** A fetch that finds nothing prepared: downloads, their authentication, the intent and the preparation. */
    method FetchMissing() returns (result: Result<Metadata, FetchError>, ghost since: nat, ghost published: nat)
      requires Valid() && WellFormed(trust) && Downloading(cache)
      modifies this
      ensures Valid() && old(trace) <= trace && |old(trace)| <= since <= published <= |trace|
      ensures forall i :: |old(trace)| <= i < since ==> Downloading(trace[i])
      ensures forall i :: since <= i < published ==>
                || Preparing(trace[i], trust.hash(fetcher.archive), nonce)
                || (i == |trace| - 1 && result.Failure? && CleanedUp(trace[i]))
      ensures forall i :: published <= i < |trace| ==> Published(trace[i], trust, fetcher)
      ensures published < |trace| ==> OneFilesystem(site)
      ensures result.Success? ==>
                published < |trace| && cache.intent.None? && cache.metadata == Some(MetadataRecord(result.value))
      ensures Ends(old(step), result) && LeavesOff(old(step))
    {
      ghost var n := step;
      hide Published, CleanedUp, Ends, CompletionEnds, GivesUp, AllWork, Preparing, LeavesOff;
      var downloaded := Download();
      ghost var first := trace;
      since, published := |trace|, |trace|;
      if !downloaded {
        Ending(n, Failure(Io));
        LeavingOff(n);
        return Failure(Io), since, published;
      }
      var digest := Authenticate();
      if digest.Failure? {
        Ending(n, Failure(digest.error));
        LeavingOff(n);
        return Failure(digest.error), since, published;
      }
      result, since, published := Begin(digest.value);
      Ending(n, result);
      LeavingOff(n);
      assert forall i :: |old(trace)| <= i < |first| ==> trace[i] == first[i];
    }

    /**
     The whole fetch. A verified image is returned as it is, and any other leftover is refused; neither
     changes anything. From a clean cache, the states that a crash can leave are: downloads, until the
     intent is published; a preparation with its intent, never missing; and the published, authentic
     image. Only a failed preparation that cleaned up may end without an intent before that. A fetch
     succeeds exactly if nothing goes wrong, and else the first cause decides the error.
     */
    method Fetch() returns (result: Result<Metadata, FetchError>, ghost since: nat, ghost published: nat)
      requires Valid() && WellFormed(trust) && (cache.extracted.Some? ==> cache.roots != map[])
      modifies this
      ensures Valid() && old(trace) <= trace && |old(trace)| <= since <= published <= |trace|
      ensures match Inspect(old(cache), trust.hash)
              case Verified(m) => result == Success(m) && trace == old(trace)
              case Missing => Ends(old(step), result) && LeavesOff(old(step))
              case _ => result == Failure(RecoveryRequired) && trace == old(trace)
      ensures result == Failure(RecoveryRequired)
         <==> Inspect(old(cache), trust.hash) != Missing && !Inspect(old(cache), trust.hash).Verified?
      ensures forall i :: |old(trace)| <= i < since ==> Downloading(trace[i])
      ensures forall i :: since <= i < published ==>
                || Preparing(trace[i], trust.hash(fetcher.archive), nonce)
                || (i == |trace| - 1 && result.Failure? && CleanedUp(trace[i]))
      ensures forall i :: published <= i < |trace| ==> Published(trace[i], trust, fetcher)
      ensures published < |trace| ==> OneFilesystem(site)
      ensures result.Success? && Inspect(old(cache), trust.hash) == Missing ==>
                published < |trace| && cache.intent.None? && cache.metadata == Some(MetadataRecord(result.value))
    {
      MissingIsClean(cache, trust.hash);
      hide Inspect, Published, CleanedUp, Ends, LeavesOff;
      since, published := |trace|, |trace|;
      var state := Inspect(cache, trust.hash);
      if state.Verified? {
        return Success(state.metadata), since, published;
      }
      if state != Missing {
        return Failure(RecoveryRequired), since, published;
      }
      ghost var n := step;
      result, since, published := FetchMissing();
      NeverRecovery(n, result);
    }
  }

  // ---------------------------------------------------------------- what a later inspection finds

  /** The states of a fetch, in order: downloads, then a preparation, then the published image. */
  ghost predicate FetchTrace(trace: seq<Cache>, since: nat, published: nat, t: Trust, f: Fetcher, nonce: nat,
                             failed: bool)
  {
    && since <= published <= |trace|
    && (forall i :: 0 <= i < since ==> Downloading(trace[i]))
    && (forall i :: since <= i < published ==>
          Preparing(trace[i], t.hash(f.archive), nonce) || (i == |trace| - 1 && failed && CleanedUp(trace[i])))
    && (forall i :: published <= i < |trace| ==> Published(trace[i], t, f))
  }

  /**
   At every crash point of a fetch, inspection tells the truth: it says verified exactly from the
   metadata's rename on, and then the image is authentic; from the intent's rename on it never says
   missing, unless a failed fetch has cleaned up; before that it always does.
   */
  lemma CrashesAreClassified(trace: seq<Cache>, since: nat, published: nat, t: Trust, f: Fetcher, nonce: nat,
                             failed: bool, i: nat)
    requires WellFormed(t) && FetchTrace(trace, since, published, t, f, nonce, failed) && i < |trace|
    ensures Inspect(trace[i], t.hash).Verified? <==> published <= i
    ensures published <= i ==> Authentic(trace[i], t, f) && Inventory(trace[i]) == RecordedVerified
    ensures i < since ==> Inspect(trace[i], t.hash) == Missing
    ensures since <= i < published && (i < |trace| - 1 || !failed) ==>
              trace[i].intent.Some? && Inspect(trace[i], t.hash) in {Interrupted, Orphaned, Conflict}
    ensures since <= i && Inspect(trace[i], t.hash) == Missing ==> i == |trace| - 1 && failed && CleanedUp(trace[i])
    ensures Inspect(trace[i], t.hash) == Conflict ==> trace[i].prepared.Some? && trace[i].prepared == trace[i].extracted
  {
    StagesAreClassified(trace[i], t, f, t.hash(f.archive), nonce);
    if published <= i {
      assert Published(trace[i], t, f);
      InventoryRefines(trace[i], t.hash);
    }
  }

  /**
   A fetch by a fresh process. It finds a verified image, or a leftover that it refuses, or else leaves
   exactly the states of a fetch, one after the other. If no step fails it publishes the image exactly
   for signed sums that list the archive's digest, an extractor that delivers and leaves the archive
   alone, and one file system; else it ends without an intent, with the error for what is wrong.
   */
  method FetchKali(start: Cache, faults: nat -> Fault, trust: Trust, fetcher: Fetcher, nonce: nat, inode: nat,
                   site: Site)
    returns (fetch: Preparation, result: Result<Metadata, FetchError>, ghost since: nat, ghost published: nat)
    requires WellFormed(trust) && (start.extracted.Some? ==> start.roots != map[])
    ensures fresh(fetch) && fetch.Valid() && fetch.trace[0] == start
    ensures fetch.trust == trust && fetch.fetcher == fetcher && fetch.site == site && fetch.faults == faults
    ensures match Inspect(start, trust.hash)
            case Verified(m) => result == Success(m) && fetch.cache == start
            case Missing =>
              && FetchTrace(fetch.trace, since, published, trust, fetcher, nonce, result.Failure?)
              && fetch.Ends(0, result) && fetch.LeavesOff(0)
              && (published < |fetch.trace| ==> OneFilesystem(site))
              && (result.Success? ==>
                    && published < |fetch.trace| && Published(fetch.cache, trust, fetcher)
                    && fetch.cache.intent.None? && fetch.cache.metadata == Some(MetadataRecord(result.value)))
              && ((forall n :: faults(n) == Works) ==>
                    && (result.Success? <==> fetch.Authenticated() && fetch.ExtractsProperly() && OneFilesystem(site))
                    && (result.Failure? ==> result.error == fetch.Refusal())
                    && (result.Failure? && fetch.Authenticated() ==> CleanedUp(fetch.cache)))
            case _ => result == Failure(RecoveryRequired) && fetch.cache == start
  {
    hide Inspect, FetchTrace, Preparation.Ends, Preparation.LeavesOff, Published, CleanedUp;
    fetch := new Preparation(start, faults, trust, fetcher, nonce, inode, site);
    result, since, published := fetch.Fetch();
    assert fetch.trace[0] == start;
    if Inspect(start, trust.hash) == Missing {
      MissingIsClean(start, trust.hash);
      FreshTrace(start, fetch.trace, since, published, trust, fetcher, nonce, result.Failure?);
      if forall n :: faults(n) == Works {
        fetch.WithoutFaults(0, result);
      }
    }
  }

  lemma FreshTrace(start: Cache, trace: seq<Cache>, since: nat, published: nat, t: Trust, f: Fetcher, nonce: nat,
                   failed: bool)
    requires trace != [] && trace[0] == start && Downloading(start) && 1 <= since <= published <= |trace|
    requires forall i :: 1 <= i < since ==> Downloading(trace[i])
    requires forall i :: since <= i < published ==>
               Preparing(trace[i], t.hash(f.archive), nonce) || (i == |trace| - 1 && failed && CleanedUp(trace[i]))
    requires forall i :: published <= i < |trace| ==> Published(trace[i], t, f)
    ensures FetchTrace(trace, since, published, t, f, nonce, failed)
  {
    hide Downloading, Preparing, Published, CleanedUp;
  }
}
