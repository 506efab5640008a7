# Forge: verified model

Forge manages virtual machines and fails closed: it works through multi-step protocols over durable
state and an outside world (libvirt's domain list, a storage pool, the file system) that may change or
fail between any two steps, and it must resume, roll back or refuse correctly. This project models the
parts where that matters and proves what they keep. Failures, crashes and interference are inputs of the
model: every call of the outside world may fail before or after it has taken effect.

- **Durable deletion** (`Delete*`, `DomainIdentity`). An immutable plan is driven through stopping and
  undefining the exact domain, deleting each exact volume, proving its absence and publishing a
  checkpoint. Safety holds over every run of any number of invocations, with arbitrary interference;
  convergence over every pattern of failures and crashes when nobody else changes the host.
- **Domain documents** (`Text`, `Markup`, `Escaping`, `DomainXml`, `Scanners`, `ScannerTheorems`,
  `Document*`, `Topology*`, `PrintedTags`, `QuotedText`, `DiskReplacement`, `DiskPath`). The printer of domain markup,
  which loses nothing of what it prints, the textual scanners that read it back, and the textual
  replacement of the disk path, over unbounded strings and trees.
- **Creation** (`SharedBase`, `CreateTransaction`, `Upload`). The create transaction with its single
  commit point, the durable proof for a shared base, and the base upload.
- **Images** (`FileProof`, `KaliState`, `KaliPublication`, `RecoveryCleanup`, `Bundle`, `Provenance`,
  `TarListing`, `WhonixInventory`). Byte-backed proofs between identity snapshots, publication and its
  classification at every crash point, recovery cleanup, the bundle allowlist and its provenance.

`Results`, `Primitives`, `Sequences` and `WriteFaults` hold what several of these share.

Code that changes state is modelled as classes and loops, each proved equal to a specification function
or to the property it must establish; the lemmas are about those functions. `hide` statements in proofs
only keep definitions away from the solver.

## What the proofs show about the code

Where the code does less than one might expect, the exact condition is proved, and a concrete input
shows the failure.

- A plan is refused while a domain references a volume path or another volume is backed by it, even if
  the volume itself is already gone (`GoneButReferencedIsRefused`); `StorageReadyIff` is the exact
  condition.
- A deletion call that fails without effect is reported as refused (`FailureWithoutEffectIsRefused`),
  although a later invocation resumes the plan like any other. After a failed call the result is a
  refusal exactly when an absence observation answers and still finds a volume
  (`FailedDeleteRefusedIff`).
- A vCPU count is printed from 64 bits and read into 32: the topology comes back exactly if the count
  fits (`RenderedTopology`, `CountThatIsRefused`). The field named for kibibytes receives the printed
  mebibytes, of every document (`MemoryComesBackAsMebibytes`). Self-closing graphics elements are never
  reported, and the ports of a point-to-point link are not read.
- Both disk path readers return the escaped text; it is the path exactly when nothing in it needs
  escaping (`PathComesBackIff`, `RenderedDiskPath`, `PathThatIsReadEscaped`). A replacement path is
  written unescaped, so the result is a rendering exactly when it needs none (`UnescapedReplacementIff`,
  `ReplacementThatIsNoRendering`). A recorded path that the document holds escaped is found only where
  it is the front of its own escaped text, or somewhere else altogether; `RawReplacementIff` states when
  the result still is the changed document.
- A replacement can be undone exactly if the new path does not contain the old one, is counted once in
  the changed document and is found first where it was put (`ReplacingBackIff`). A new path without an
  apostrophe always is, so that only the first condition remains (`ReplacingBack`,
  `ReplacementThatCannotBeUndone`); one with an apostrophe may not be (`ReplacementThatIsFoundElsewhere`).
- The attribute scanner takes a longer attribute name, or a value, that ends like the wanted one for it
  (`LongerNameIsTaken`). `AttributeOfPrint` states what it reads from every printed tag, and
  `AttributeIsRightIff` when that is the wanted attribute.
- Importing a base or creating an overlay can fail after the volume exists and before its flag is raised,
  so the rollback does not know of it (`InspectionLeavesBase`); `RollbackRestoresIff` states exactly which
  failures leave a volume. Publishing the manifest can fail after its rename; the rollback then removes
  the storage that a published manifest names (`PublishedManifestOfNothing`).
- The identity that a byte verification returns is not compared with the identities captured around it:
  a path that is led elsewhere in between is not noticed (`SwapIsNotNoticed`). That comparison is exactly
  what is missing (`VerifiedIsProvenIff`); without it a proof is sound exactly if the two files have the
  same bytes (`SoundIffSameBytes`), as they have where renaming dates the inode (`ProvenContents`).
- A recovery that stops after its first removal is never taken up again: planning demands the complete
  tree, so every later recovery is refused while the intent stays (`StoppedRecoveryStaysStopped`,
  `RecoveryThatStops`).
- The consumer named as evidence for a shared base depends on the directory order
  (`OrderNamesTheConsumer`): it is the last one that records the base (`LastConsumerIsNamed`). The
  outcome and the resource do not (`OrderDoesNotMatter`).

## Model

| member | source | states |
|---|---|---|
| DeleteState.BeginSucceedsIff | crates/forge-state/src/managed.rs:541-575 | Publishing delete intent succeeds exactly on a valid index without other recovery, retained generations or delete state, and starts with everything pending |
| DeleteState.RecordDomainIsCheckpoint | crates/forge-state/src/managed.rs:577-603 | Whenever its guard holds, recording the domain keeps the index valid, changes nothing but the delete state, and strictly reduces what is left |
| DeleteState.RecordResourceIsCheckpoint | crates/forge-state/src/managed.rs:605-647 | The same for one pending resource, which alone becomes absent |
| DeleteState.CompleteIsCheckpoint | crates/forge-state/src/managed.rs:649-682 | With everything recorded absent, completion is a last strictly decreasing checkpoint to the tombstone of the same plan |
| DeleteState.ValidIndexIff | crates/forge-state/src/managed.rs:1539-1616 | An index is valid iff its schema is known, it has exactly one active generation, the named one, no identity twice, only fitting cleanup records, and a plan of its own being deleted, if any |
| DeleteState.ValidPlanIff | crates/forge-state/src/managed.rs:490-522 | A plan is valid iff it is complete, of this domain and generation, and names disposable volumes that differ in key or path |
| DeleteState.BeginIff | crates/forge-state/src/managed.rs:541-573 | Deletion begins iff all that is valid and every generation is active or cleaned; an unknown schema is refused as such |
| DeleteState.RecordedIff | crates/forge-state/src/managed.rs:577-682 | Each checkpoint is published iff a valid index pursues this very plan and stands just before it |
| DeleteState.RefusedAs | crates/forge-state/src/managed.rs:1539-1542 | Whatever checkpoint is refused, an unknown schema is named as such and anything else as an invalid state |
| DomainIdentity.ClassifiedIff | crates/forge-libvirt/src/lib.rs:240-302 | A listing is the exact domain iff one entry has both name and UUID and no other has either, absent iff none has either; an undefine is authorized iff that entry is persistent and shut off |
| DeleteSafety.PublishIsSafe | crates/forge-cli/src/main.rs:1930-1944 | Persisting a checkpoint keeps the deletion owned: either index is a valid index of this plan, whatever becomes of the write |
| DeleteSafety.UndefineIsSafe | crates/forge-libvirt/src/lib.rs:375-465 | Undefine acts only on the exact planned domain, persistent and shut off, and while the durable domain step is pending |
| DeleteSafety.VolumeDeleteIsSafe | crates/forge-libvirt/src/lib.rs:2408-2474 | Only an exact, unreferenced, non-backing, still pending plan resource is removed, as each of the separate looks before the deletion found it; never a shared base, never before the domain step is recorded |
| DeleteSafety.StoragePhaseIsSafe | crates/forge-cli/src/main.rs:2243-2285 | The storage loop keeps every safety clause and ends with all resources durably recorded absent |
| DeleteSafety.BegunDeletionIsOwned | crates/forge-cli/src/main.rs:2090-2111 | The published intent is the first owned state, before any effect |
| DeleteSafety.EveryRunIsSafe | crates/forge-cli/src/main.rs:2143-2300 | Over any number of invocations with any failures, crashes and interference, every effect was authorized by the durable plan; without interference, what is recorded absent is absent |
| DeleteObservations.VolumeRecordedAfterSeen | crates/forge-cli/src/main.rs:2243-2300 | Under any interference a volume is recorded absent only from the host right after a call that answered that nothing is at its path |
| DeleteObservations.DomainRecordedAfterSeen | crates/forge-cli/src/main.rs:2143-2242 | Under any interference the domain step is recorded only from the host right after the run's own last listing, which had neither the name nor the UUID |
| DeleteObservations.FailedDeleteRefusedIff | crates/forge-cli/src/main.rs:2263-2285 | A deletion that fails in the backend ends refused exactly when one of the following absence observations answers and still finds a volume, and done exactly when both find none |
| DeleteObservations.FailureWithoutEffectIsRefused | crates/forge-cli/src/main.rs:2263-2285 | A deletion call that fails without effect is refused, and the same removal succeeds the next time |
| DeleteObservations.GoneButReferencedIsRefused | crates/forge-libvirt/src/lib.rs:2408-2437 | A volume that is already gone is refused while a domain refers to its path |
| DeleteConvergence.CrashesKeepTheEnd | crates/forge-cli/src/main.rs:2143-2300 | Any failures and crashes of any number of invocations leave a world that is still ready and has the same final world and tombstone |
| DeleteCompletion.StorageReadyIff | crates/forge-libvirt/src/lib.rs:2408-2474 | Readiness of storage is, resource by resource, a condition on the world before the loop starts |
| DeleteCompletion.RemovesExactlyPending | crates/forge-cli/src/main.rs:2243-2285 | The loop's end: exactly the pending paths are gone, every other volume and all domains are as before |
| DeleteCompletion.FaultlessResumeSucceedsIff | crates/forge-cli/src/main.rs:2143-2300 | Without faults a resume finishes iff the world is ready and a running domain may be force-stopped, and then leaves the tombstone and the final world |
| DeleteCompletion.CrashConvergence | crates/forge-cli/src/main.rs:2143-2300 | After any crashes, one fault-free forced resume ends with the same tombstone, domains and pool as an undisturbed run |
| DeleteProcess.DeletionBackend.UndefineExact | crates/forge-libvirt/src/lib.rs:375-465 | The adapter's undefine, call by call, is the specified step |
| DeleteProcess.DeletionBackend.DeleteVolumeExact | crates/forge-libvirt/src/lib.rs:2408-2474 | The adapter's exact volume deletion, with its separate looks at the domains, the pool and the volume, is the specified step |
| DeleteProcess.DeletionBackend.VerifyVolumeAbsent | crates/forge-libvirt/src/lib.rs:2480-2497 | The adapter's absence check is the specified step |
| DeleteProcess.DeletionBackend.ExecuteDeletePlanInner | crates/forge-cli/src/main.rs:2143-2300 | The imperative execution, with its in-memory index and storage loop, computes exactly the specified outcome and host |
| DeleteOutcomes.ExecutionEnds | crates/forge-cli/src/main.rs:2143-2300 | Over any failures, crashes and interference, how an execution ends is decided by the first call that dies, is not answered, or answers with an obstacle, listed call by call: done, refused, recoverable or dead |
| DeleteOutcomes.ResumeEnds | crates/forge-cli/src/main.rs:2010-2025 | The same of an invocation that resumes; without a valid index with a deletion it is refused, with a tombstone done |
| DeleteOutcomes.DomainStepEnds | crates/forge-cli/src/main.rs:2143-2242 | The domain step refuses a confused listing, a state other than shut off or running, and a running domain without force; an unconfirmed or failed stop sets it back |
| DeleteOutcomes.UndefineEnds | crates/forge-libvirt/src/lib.rs:375-465 | Every answer of the exact undefine, with which error, for any listings at its separate looks |
| DeleteOutcomes.ExactDeletionEnds | crates/forge-libvirt/src/lib.rs:2408-2474 | Every answer of the exact volume deletion, with which error, and how far it gets |
| DeleteOutcomes.RemovalEnds | crates/forge-cli/src/main.rs:2263-2285 | How the removal of a planned volume ends, with one confirmation after a success and two after a backend failure |
| DeleteOutcomes.UnforcedRunningIsRefused | crates/forge-cli/src/main.rs:2182-2187 | An exact running domain is refused without force, before anything is changed |
| DeleteOutcomes.SharedBaseIsRefused | crates/forge-libvirt/src/lib.rs:2408-2413 | The removal of a shared base is refused before any call |
| Text.ParseOfDecimal | crates/forge-libvirt/src/lib.rs:809-816 | Parsing a printed number gives it back exactly when it fits the width |
| Text.ParsedIff | crates/forge-libvirt/src/lib.rs:809-818 | A text is read as a number iff it is the numeral of a number within the width, perhaps after a plus sign and zeros |
| Text.TrimTrims | crates/forge-libvirt/src/lib.rs:752-757 | Trimming removes white space around a text, all of it and nothing else |
| Text.OrderedIff | crates/forge-libvirt/src/lib.rs:798-799 | The order of the kinds is that of their first difference, a front before the whole |
| Text.SortedSorts | crates/forge-libvirt/src/lib.rs:798-799 | The kinds are returned ordered and as a permutation |
| Text.SortedIsUnique | crates/forge-libvirt/src/lib.rs:798-799 | Order and contents determine the returned list |
| Escaping.EscapeIsOnePass | crates/forge-domain/src/lib.rs:535-542 | The five successive replacements equal one character map |
| Escaping.EscapedIsPlain | crates/forge-domain/src/lib.rs:535-542 | Escaped text has no bracket and no quote of either kind |
| Escaping.DecodeEscaped | crates/forge-domain/src/lib.rs:535-542 | Decoding the predefined entities (section 4.6 of XML 1.0) is a left inverse of escaping |
| Escaping.EscapeChangesNothingIff | crates/forge-domain/src/lib.rs:535-542 | Escaping is the identity exactly on text without special characters |
| DomainXml.XmlWriter.WriteLine | crates/forge-domain/src/lib.rs:503-508 | A line is appended to the buffer, whose text stays the print of the tokens written |
| DomainXml.ValidatedIff | crates/forge-domain/src/lib.rs:305-395 | A specification is valid iff it has none of twelve listed faults, and else its first one in order is reported |
| DomainXml.XmlWriter.WriteDevices | crates/forge-domain/src/lib.rs:436-490 | With their loops over interfaces and channels, exactly the device tokens are written |
| DomainXml.Render | crates/forge-domain/src/lib.rs:397-496 | The writer's output is the printed document of a valid specification, or the first violated invariant |
| PrintedTags.TagsDetermined | crates/forge-domain/src/lib.rs:503-528 | Printing loses no tag: plain token lists with the same text have the same tags in the same order |
| PrintedTags.BracketsAreTags | crates/forge-domain/src/lib.rs:503-528 | Plain tokens print as many opening brackets as they have tags |
| DocumentDetermines.RenderedTagNumber | crates/forge-domain/src/lib.rs:397-496 | A rendered document has exactly as many opening brackets as the shape of its specification has tags: no text adds one |
| DocumentDetermines.RenderedAlikeIff | crates/forge-domain/src/lib.rs:397-496 | Two valid specifications are rendered alike iff they agree on name, UUID, firmware, processors, both memory sizes, disk path, interfaces with networks and ports, and channels |
| Scanners.ScanXmlBlocks | crates/forge-libvirt/src/lib.rs:736-750 | The block loop computes the specified blocks |
| Scanners.ScanBetween | crates/forge-libvirt/src/lib.rs:740-748 | One loop for any pair of markers, which terminates |
| Scanners.ScanDirectChildKinds | crates/forge-libvirt/src/lib.rs:768-800 | The depth loop computes the specified sorted kinds |
| Scanners.ScanChildKinds | crates/forge-libvirt/src/lib.rs:772-797 | The loop over brackets with its depth counter, which terminates on every text |
| ScannerTheorems.BlocksOfPrint | crates/forge-libvirt/src/lib.rs:736-750 | On every printed document the block scanner returns exactly the printed blocks of tokens |
| ScannerTheorems.TextOfElement | crates/forge-libvirt/src/lib.rs:752-757 | The text of a printed element is read back, trimmed |
| ScannerTheorems.AttributeOfPrint | crates/forge-libvirt/src/lib.rs:1756-1769 | What the attribute scanner reads from every printed document: from the first such tag, the first attribute whose name ends like the wanted one, or what follows a value that does |
| ScannerTheorems.AttributeIsRightIff | crates/forge-libvirt/src/lib.rs:1756-1769 | That is the attribute looked up exactly if nothing before it can be mistaken for it, or the mistaken one happens to give the same text |
| ScannerTheorems.TagAttributeIff | crates/forge-libvirt/src/lib.rs:1756-1769 | Of any text of a tag, the value read stands between the first single-quoted marker and the next quote, and only without such a marker between double quotes |
| ScannerTheorems.SplitParts | crates/forge-libvirt/src/lib.rs:1571-1576 | Splitting a text loses only the separators and leaves none in any piece |
| ScannerTheorems.LongerNameIsTaken | crates/forge-libvirt/src/lib.rs:1756-1769 | A tag from which a longer name's value is read instead of the wanted one |
| ScannerTheorems.DirectChildrenOfTree | crates/forge-libvirt/src/lib.rs:768-800 | For every printed element tree, however deep and with any attribute text free of brackets, the result is the sorted multiset of the root's own child names |
| ScannerTheorems.DeclarationIsSkipped | crates/forge-libvirt/src/lib.rs:772-797 | Declarations and comments are neither listed nor counted as nesting, at any depth |
| TopologyTheorem.RenderedTopology | crates/forge-libvirt/src/lib.rs:802-871 | The topology read from any rendered document is the specification's own, iff the vCPU count fits 32 bits; otherwise the count is refused |
| TopologyTheorem.CountThatIsRefused | crates/forge-libvirt/src/lib.rs:809-816 | A document that is rendered and whose processor count the reader refuses |
| TopologyTheorem.MemoryComesBackAsMebibytes | crates/forge-libvirt/src/lib.rs:815-818 | Of every rendered document, the memory read is the specification's in mebibytes, and never in kibibytes |
| TopologyTheorem.PathComesBackIff | crates/forge-libvirt/src/lib.rs:822-834 | The disk source read back is the path iff the path needs no escaping |
| TopologyTheorem.PathThatIsReadEscaped | crates/forge-libvirt/src/lib.rs:822-834 | A document whose disk source is not read back as the path |
| TopologyTheorem.KindsOfDevicesBlock | crates/forge-libvirt/src/lib.rs:846-847 | The device kinds of a rendered document are exactly channels, disk, graphics, interfaces and video, sorted |
| TopologyTheorem.PortsAreNotRead | crates/forge-libvirt/src/lib.rs:836-845 | Links that differ only in their ports are one topology |
| TopologyTokens.TextOfPrint | crates/forge-libvirt/src/lib.rs:752-757 | Of every printed document, the text scanner reads from the first tag so named up to the next closing tag of the very name |
| TopologyTokens.TopologyOfTokens | crates/forge-libvirt/src/lib.rs:802-871 | Of every printed document, whoever rendered it, the first thing missing decides the refusal, and else every field is what the tokens say: firmware, marks, addresses, sources, graphics, agents, host devices, file systems and kinds |
| TopologyTrees.BlocksOfNodes | crates/forge-libvirt/src/lib.rs:736-750 | In any element tree without a name to confuse, the blocks are exactly the elements of that name, in order |
| TopologyTrees.TopologyOfTree | crates/forge-libvirt/src/lib.rs:802-871 | Of such a tree, one disk and interface for each element, the loader text, the agents, the host devices and file systems of the devices element and the sorted names of its children are reported |
| TopologyTrees.PassthroughIsNoticed | crates/forge-libvirt/src/lib.rs:866-867 | No host device or file system in the devices element, however deep, goes unreported |
| DiskReplacement.CountedOnceIff | crates/forge-libvirt/src/lib.rs:728-732 | Quote-free text between quotes is counted once iff it occurs nowhere else |
| DiskReplacement.ReplacedDocument | crates/forge-libvirt/src/lib.rs:728-734 | Replacing the escaped path succeeds iff the old text occurs nowhere else and the new nowhere, and gives the document printed with the new path |
| DiskReplacement.ReplacementIsRendering | crates/forge-libvirt/src/lib.rs:728-734 | For plain paths a successful replacement is the rendering of the specification with only the disk path changed |
| DiskReplacement.UnescapedReplacementIff | crates/forge-libvirt/src/lib.rs:728-734 | For every old path, replacing its text gives the rendering with the new path iff that path needs no escaping |
| DiskReplacement.RawReplacementIff | crates/forge-libvirt/src/lib.rs:728-734 | Replacing any old path as it is recorded gives that rendering iff the path is found as the front of its own escaped text and the new path completes what is left of it |
| QuotedText.ExchangeIsNotEscaping | crates/forge-libvirt/src/lib.rs:728-734 | Exchanging an occurrence of a path with an apostrophe, wherever it is found around its escaped form, never gives the document with the other path in its place |
| DiskReplacement.ReplacementThatIsNoRendering | crates/forge-libvirt/src/lib.rs:728-734 | A successful replacement whose result is not the rendering with the new path |
| DiskReplacement.ReplacingBackIff | crates/forge-libvirt/src/lib.rs:728-734 | For every old path and every new text, replacing back restores the original document iff the new text does not contain the old one, is counted once in the changed document and is found first where it was put |
| DiskReplacement.ReplacingBack | crates/forge-libvirt/src/lib.rs:728-734 | For every old path and every new text without an apostrophe, replacing back restores the original document iff the new text does not contain the old one, and is refused otherwise |
| DiskReplacement.ReplacementThatIsFoundElsewhere | crates/forge-libvirt/src/lib.rs:728-734 | A successful replacement by an absolute path that does not contain the old one and still cannot be undone |
| DiskReplacement.ReplacementThatCannotBeUndone | crates/forge-libvirt/src/lib.rs:728-734 | A successful replacement whose reverse is refused |
| DiskReplacement.ReplacedTopology | crates/forge-libvirt/src/lib.rs:728-734 | Of the topology, only the disk source changes, to the new path |
| DiskPath.RenderedDiskPath | crates/forge-libvirt/src/lib.rs:1571-1576 | The split-based scanner finds the disk of every rendered document, whatever the domain's name, and its escaped path |
| DiskPath.ReplacedDiskPath | crates/forge-libvirt/src/lib.rs:1571-1576 | After a successful replacement it finds the new path |
| DiskPath.FirstSectionIff | crates/forge-libvirt/src/lib.rs:1571-1576 | Of any text, the first section that says device disk, in quotes of either kind, is taken |
| SharedBase.ExistingSharedBaseProof | crates/forge-cli/src/main.rs:6963-7039 | The loop over directory entries computes the specified fold |
| SharedBase.ProvenIff | crates/forge-cli/src/main.rs:6963-7039 | A resource is proven iff every entry is sound, some consumer records it and none records another |
| SharedBase.BaseIsFirst | crates/forge-cli/src/main.rs:6963-7039 | A consumer records the first shared base of that name in its manifest |
| SharedBase.FirstFailureDecides | crates/forge-cli/src/main.rs:6963-7039 | The first entry that cannot be read, is not reconciled or disagrees decides which error the proof ends with |
| SharedBase.NoConsumerIff | crates/forge-cli/src/main.rs:6963-7039 | No consumer is reported iff all entries are sound and none records the base |
| SharedBase.OrderDoesNotMatter | crates/forge-cli/src/main.rs:6963-7039 | Success and the proven resource are the same for every order of the entries |
| SharedBase.LastConsumerIsNamed | crates/forge-cli/src/main.rs:7030-7033 | The consumer named as evidence is the last one in directory order that records the base, whatever follows it |
| SharedBase.OrderNamesTheConsumer | crates/forge-cli/src/main.rs:6963-7039 | Two consumers of one base, of which either order names another |
| SharedBase.ReusedIff | crates/forge-storage/src/generic_create.rs:37-67 | With the proof folded from the state directories, a base is reused iff plan, live volume and every recorded consumer agree and the record carries a key |
| SharedBase.ClassifiedIff | crates/forge-storage/src/generic_create.rs:37-67 | Every answer of the classification, for any volume and any proof or none: reuse iff the volume is the planned one and the proof a keyed record of it |
| CreateTransaction.CallsAreOrdered | crates/forge-storage/src/generic_create.rs:145-202 | The calls are a prefix of the fixed steps, followed by one rollback iff storage preparation, inspection or publication failed |
| CreateTransaction.CreateEnds | crates/forge-storage/src/generic_create.rs:145-202 | How every run ends, with any failures: refused for another kind of plan, else decided by the first failing step, before ownership with whether the rollback failed |
| CreateTransaction.DispositionIff | crates/forge-cli/src/main.rs:7134-7264 | What an existing base is used for, on pool and recorded instances alone: a clone needs none, a promoted one must be as recorded, any other absent or vouched for by an instance |
| CreateTransaction.ReuseIsProvenAgain | crates/forge-cli/src/main.rs:7344-7360 | A base is reused only if it is still as planned and vouched for when storage is prepared; else nothing is made |
| CreateTransaction.ActivatedIff | crates/forge-state/src/managed.rs:1140-1187 | A manifest is published only where there is none, and an index only over that very manifest, as it is observed |
| CreateTransaction.RollbackRestoresIff | crates/forge-cli/src/main.rs:7266-7475 | A create that failed before ownership leaves the pool as it was iff no failing call left a volume and the deletions due for the flags raised took effect; a manifest stays iff publishing failed after its rename |
| CreateTransaction.InspectionLeavesBase | crates/forge-libvirt/src/lib.rs:1399-1447 | An import that fails after its upload leaves the base although the rollback reports no failure |
| CreateTransaction.PublishedManifestOfNothing | crates/forge-storage/src/generic_create.rs:171-202 | A manifest published by a failing call stays although the rollback has removed all it names |
| CreateTransaction.CleanRollbackRestoresIff | crates/forge-libvirt/src/lib.rs:1399-1447 | After a rollback without failures only volumes of a failing import, clone or overlay creation can remain |
| CreateTransaction.NothingIsRemoved | crates/forge-cli/src/main.rs:7446-7475 | In every run no volume that existed before is removed or changed, so a reused base never is |
| CreateTransaction.RecoveryFindsEverything | crates/forge-storage/src/generic_create.rs:189-202 | Beyond the commit point the pool is exactly extended, and the manifest records it as recovery will compare it |
| CreateTransaction.CommittedEnds | crates/forge-storage/src/generic_create.rs:189-202 | Beyond the commit point the manifest records the planned overlay and base field by field, and index and domain are there iff their calls have taken effect |
| CreateTransaction.FaultlessSucceedsIff | crates/forge-storage/src/generic_create.rs:145-202 | Without failures a create succeeds iff the plan is of the supported kind, its targets are absent, and its base is absent, or there as planned and vouched for |
| CreateTransaction.ManualGuestBackend.Prepare | crates/forge-cli/src/main.rs:7266-7393 | Storage preparation raises each flag only after the call that made the volume, as specified |
| CreateTransaction.ManualGuestBackend.RollBack | crates/forge-cli/src/main.rs:7446-7475 | Rollback attempts both deletions, each only under its flag |
| CreateTransaction.ExecuteGenericCreate | crates/forge-storage/src/generic_create.rs:145-202 | The driver over a mutable backend computes the specified transaction |
| Upload.ChunkArrives | crates/forge-libvirt/src/lib.rs:1523-1534 | For any pattern of short sends a chunk arrives whole, or a proper front of it and an error |
| Upload.ChunkStops | crates/forge-libvirt/src/lib.rs:1523-1534 | The first send that fails or takes nothing ends a chunk, with its error and with what the sends before took |
| Upload.SuccessIsFaithful | crates/forge-libvirt/src/lib.rs:1515-1562 | On success the stream received exactly what was read up to the end of the file, of the declared length |
| Upload.TransferSucceedsIff | crates/forge-libvirt/src/lib.rs:1498-1562 | A file read to its end arrives iff every chunk is taken and its size is the declared one |
| Upload.TransferStops | crates/forge-libvirt/src/lib.rs:1498-1562 | What ends a transfer after the chunks that were taken: a failing read, a wrong size, a failing chunk or a size beyond 64 bits, each with its error |
| Upload.UploadCopiesFile | crates/forge-libvirt/src/lib.rs:1490-1568 | An upload succeeds iff moreover everything opens, starts and finishes; a stream is closed as complete only with exactly the file's contents, and aborted only for a wrong size |
| Upload.UploadEnds | crates/forge-libvirt/src/lib.rs:1490-1568 | How the upload of a whole file ends and whether its stream is finished or aborted, for every outcome of opening, finishing and aborting |
| Upload.UploadFile | crates/forge-libvirt/src/lib.rs:1490-1568 | The two nested loops, with opening, finishing and aborting, compute the specified upload |
| FileProof.HashOpenFile | crates/forge-images/src/lib.rs:3841-3868 | The chunk loop hashes everything read up to the end of the file |
| FileProof.ReadsToEnd | crates/forge-images/src/lib.rs:3841-3868 | With enough reads, a file that stays as it is is read to its end |
| FileProof.VerifiedContents | crates/forge-images/src/lib.rs:2384-2405 | Whatever happens during the reads, success means the path named one unchanged inode and the digest is that of its contents at the final snapshot |
| FileProof.VerifiedIff | crates/forge-images/src/lib.rs:2384-2405 | Whatever happens to the file system, verification succeeds iff the descriptor is of the one file that the path names before and after, which stays as it is, is read to its end and has the digest |
| FileProof.LeftAloneVerifiesIff | crates/forge-images/src/lib.rs:2384-2405 | Of a file left alone, verification checks just the digest |
| FileProof.ProvenIff | crates/forge-images/src/lib.rs:3362-3407 | A proof is made iff all inputs have the same identities before and after and every check verifies, and it consists of them |
| FileProof.VerifiedIsProvenIff | crates/forge-images/src/lib.rs:3362-3407 | Of a successful proof, the file verified is the file recorded iff the identity that verification returns equals the captured one |
| FileProof.SoundIffSameBytes | crates/forge-images/src/lib.rs:3362-3407 | With a digest function without collisions, the digest verified is that of the proven file iff the file verified has the same bytes |
| FileProof.ProvenContents | crates/forge-images/src/lib.rs:3362-3407 | Where renaming dates the inode, every proof is sound |
| FileProof.SwapIsNotNoticed | crates/forge-images/src/lib.rs:3362-3407 | Without that, a proof can be made whose digest belongs to another inode |
| FileProof.OpenedIsProven | crates/forge-images/src/lib.rs:3442-3462 | A descriptor that is handed out later reads the very bytes the proven file had; they have the verified digest iff the proof is sound |
| FileProof.OpenedIff | crates/forge-images/src/lib.rs:3442-3462 | A descriptor is handed out iff all inputs, the metadata and what was opened are as proven |
| KaliState.InventoryRefines | crates/forge-images/src/lib.rs:3162-3214 | The cheap inventory and the full classification agree, verified exactly for well-described records, and never verified against missing, interrupted or orphaned |
| KaliState.InspectedIff | crates/forge-images/src/lib.rs:3096-3161 | Every answer of the inspection, for every cache: verified iff the record attests the pinned signer and both artifacts have exactly the recorded digests |
| KaliState.InventoriedIff | crates/forge-images/src/lib.rs:3162-3214 | Every answer of the inventory, for every cache, from the record and the shapes of the files |
| KaliPublication.StagesAreClassified | crates/forge-images/src/lib.rs:3096-3161 | Each stage of a fetch has one classification, including the window with two links |
| KaliPublication.Preparation.Promote | crates/forge-images/src/lib.rs:3556-3606 | An image already there is never overwritten: promotion fails and changes nothing; nor does it cross file systems; on success it leaves one name for the image with the expected digest |
| KaliPublication.Preparation.WriteMetadata | crates/forge-images/src/lib.rs:3713-3729 | Only from the rename on is the metadata there, and then complete |
| KaliPublication.Preparation.Complete | crates/forge-images/src/lib.rs:1704-1764 | From intent to completion every intermediate state keeps the intent or is published; only a cleaned-up failure ends without |
| KaliPublication.Preparation.Fetch | crates/forge-images/src/lib.rs:1670-1764 | A verified image is returned unchanged and recovery required iff anything but nothing is left; from a clean cache a fetch succeeds iff none of thirteen listed causes occurs, with any failing steps, and else the first decides the error and what is left |
| KaliPublication.FetchKali | crates/forge-images/src/lib.rs:1670-1764 | A fresh fetch leaves downloads, then a preparation, then the published image, in this order; if no step fails it publishes, and removes the intent, iff the sums are signed and list the archive, the extractor delivers and leaves the archive alone, and there is one file system |
| KaliPublication.Preparation.WithoutFaults | crates/forge-images/src/lib.rs:1691-1764 | If no step fails, each reason for refusing the downloads or what is made of them has its error, and a refused preparation leaves no intent |
| KaliPublication.CrashesAreClassified | crates/forge-images/src/lib.rs:3096-3161 | At every crash point inspection says verified iff the metadata is renamed, and then the image is what the extractor made of a properly listed archive; it never says missing in between |
| RecoveryCleanup.RemoveEntriesInTurn | crates/forge-images/src/lib.rs:2928-2939 | The removal loop computes the specified removal |
| RecoveryCleanup.RemovesPrefix | crates/forge-images/src/lib.rs:2928-2939 | Removal stops only at a failing removal, and what is gone is then a prefix of the plan |
| RecoveryCleanup.AllOrNothing | crates/forge-images/src/lib.rs:2879-2955 | Whatever the hook does, a cleanup succeeds iff all is still as planned and nothing fails; it removes nothing outside the plan, and failures stop it just where they occur |
| RecoveryCleanup.RootIsRemovedIff | crates/forge-images/src/lib.rs:2937-2955 | The root goes iff it still is the planned directory and is empty |
| RecoveryCleanup.PlanExistsIff | crates/forge-images/src/lib.rs:2767-2847 | A recovery can be planned iff nothing is published or being written and the intent is of a preparation whose one extraction root holds exactly the allowed files |
| RecoveryCleanup.PlanIsUnique | crates/forge-images/src/lib.rs:2767-2847 | There is only one plan for what is there |
| RecoveryCleanup.RecoverySucceedsIff | crates/forge-images/src/lib.rs:2854-2877 | The intent outlives the tree, and a recovery succeeds iff planning again gives the same plan and nothing fails |
| RecoveryCleanup.StoppedRecoveryStaysStopped | crates/forge-images/src/lib.rs:2764-2877 | After a recovery that has removed something and has left the intent, no plan is ever given again, and executing any changes nothing |
| RecoveryCleanup.RecoveryThatStops | crates/forge-images/src/lib.rs:2854-2939 | A recovery that stops after its first removal and cannot be repeated |
| Bundle.ValidateBundleEntries | crates/forge-images/src/lib.rs:251-290 | The loop with its list of identified roles computes the specified result |
| Bundle.AcceptedIffPermutation | crates/forge-images/src/lib.rs:251-290 | Exactly the permutations of the layout with all entries regular are accepted, and all give the same role-sorted list |
| Bundle.FirstOffenderDecides | crates/forge-images/src/lib.rs:251-290 | A listing of six entries is refused for its first entry that is not a plain file name, is not of the layout, or is there twice, with its error |
| Bundle.HarmlessIff | crates/forge-images/src/lib.rs:884-890 | Names are safe iff they are one component, not empty or dotted, and without a drive letter |
| Provenance.ProvenanceIgnoresOrder | crates/forge-images/src/lib.rs:325-368 | Record or refusal do not depend on the order of the artifacts |
| Provenance.ValidSignatureIff | crates/forge-images/src/lib.rs:298-323 | Signature evidence is valid iff signer, notation and time are right and it is not older than what was verified before |
| Provenance.ProvenanceIff | crates/forge-images/src/lib.rs:325-368 | A record is made, and which, iff the signature is trusted and there is one artifact of each role, all with digests; else which error |
| Provenance.RebuildsIff | crates/forge-images/src/lib.rs:325-368 | A record rebuilds from its own fields iff its signature is not too far in the future, so at every later time |
| Provenance.RebuiltMeans | crates/forge-images/src/lib.rs:3044-3069 | A record that is its own rebuilding names the official release, signer and roles and has the right identity |
| Provenance.IdentityDetermines | crates/forge-images/src/lib.rs:325-368 | With a digest function without collisions, two self-rebuilding records have one identity iff archive digest and artifacts agree |
| WhonixInventory.VerifiedIff | crates/forge-images/src/lib.rs:3013-3081 | Full inspection says verified iff the inventory does, the artifacts are intact and the provenance rebuilds |
| WhonixInventory.InspectedIff | crates/forge-images/src/lib.rs:3013-3081 | Which states of the files are missing, preparing, orphaned or fail the inspection |
| WhonixInventory.InventoriedIff | crates/forge-images/src/lib.rs:3222-3259 | Every answer of the inventory, from the record and the shapes of the files |
| WhonixInventory.StaysVerifiedIff | crates/forge-images/src/lib.rs:3013-3081 | An untouched image stays verified, except while the clock is set back beyond the tolerated skew |
| TarListing.ReadRemainder | crates/forge-images/src/lib.rs:1244-1265 | The byte loops compute the specified remainder |
| TarListing.NameComesBack | crates/forge-images/src/lib.rs:1222-1265 | From any line of fields and a name, exactly the name comes back, inner spaces included |
| TarListing.RemainderIff | crates/forge-images/src/lib.rs:1244-1265 | Of every line, the remainder starts at the field with so many before it, and there is none iff there is no such field |
| TarListing.CutsBetweenCharacters | crates/forge-images/src/lib.rs:1244-1265 | Of every well-formed UTF-8 line (section 4 of RFC 3629), for any number of fields, what is skipped and what remains are well-formed |

## Left out

- Calls into libvirt, gpg, curl, 7z, tar, qemu-img and ssh: steps that may fail or arbitrary functions; SHA-256 is an arbitrary function.
- Message texts, console output, prompts, progress reporting and exit codes; errors are enumerations.
- Durability order: a rename or removal is durable once made; a write delayed past a later one is not modelled. Durable index writes are single steps.
- DeleteProcess.DeletionBackend.DeleteVolumeExact: looking at all domains is one observation, and so are looking at all volumes and at the volume itself; a change between two domains of one listing is not modelled.
- Concurrent Forge processes: interference changes the host between calls, not the durable index.
- DeleteCompletion.CrashConvergence: assumes that nobody else changes the host, since otherwise the final world is not determined.
- Building a delete plan from manifests and live observation, and reconciliation of managed state.
- Markup beyond the printed fragment: comments, CDATA, brackets inside attribute values, nested elements of one name, and, but for DirectChildrenOfTree and TagAttributeIff, quotes inside attribute values.
- Hardware profiles and the choice of memory and processors; only validation and printing of a specification are modelled.
- CreateTransaction.ExecuteGenericCreate: the pool is quiet during a create. Snapshots of a Whonix pair, network and capacity checks are one check that may fail.
- The base behind an overlay is observed under the planned name instead of the last component of the backing path.
- FileProof.ProvenContents: a coarse clock that gives two changes one change time is outside the assumption that change times are fresh.
- Kali inputs other than files in the two cache directories, and symbolic links, appear as files that are missing or not single regular files.
- RecoveryCleanup.AllOrNothing: changes by others after the second check are not modelled.
- The Workstation inspection, preparation stages, Fresh and restore operations, and retired Fedora Cloud paths.
- JSON encoding: durable records are typed values, or broken while they are being written.
