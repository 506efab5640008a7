/**
 Recovery of an interrupted preparation: an exact plan of one extraction root and its entries, and the
 removal of just that tree, bound to open descriptors. Anything may happen to the filesystem at the
 moment between binding the descriptors and checking everything again.
 */
module RecoveryCleanup {
  import opened Results
  import opened Text
  import opened WriteFaults

  type Entries = map<string, nat>

  datatype Attributes = Attributes(size: nat, modified: nat, changed: nat, mode: nat, links: nat)

  datatype Node =
    | File(attributes: Attributes) | Directory(attributes: Attributes, entries: Entries)
    | Special(attributes: Attributes)

  /** A file or directory as it is recorded: its inode, which stands for device and number, and its attributes. */
  datatype Identity = Identity(inode: nat, attributes: Attributes)

  datatype Intent = Intent(preparing: bool, pathsMatch: bool, root: Option<string>)

  /** The file of the intent; it has an identity if it is a single regular file. */
  datatype IntentFile = IntentFile(intent: Intent, identity: Option<Identity>)

  /** The durable records of the preparation beside its tree. */
  datatype Records = Records(
    intent: Option<IntentFile>, intentTemporary: bool, metadata: bool, metadataTemporary: bool, prepared: bool)

  /** Inodes by number, what the path of the downloads directory names, and the records. */
  datatype Fs = Fs(nodes: map<nat, Node>, downloads: Option<nat>, records: Records, clock: nat)

  datatype Named = Named(name: string, identity: Identity)

  datatype Plan = Plan(
    rootName: string, intent: Intent, intentIdentity: Identity,
    downloads: Identity, root: Identity, entries: seq<Named>)

  /** A single link is one directory entry. */
  ghost predicate Coherent(fs: Fs) {
    forall d1, d2, n1, n2 ::
      && Lists(fs, d1, n1) && Lists(fs, d2, n2) && fs.nodes[d1].entries[n1] == fs.nodes[d2].entries[n2]
      && SingleFile(fs, fs.nodes[d1].entries[n1])
      ==> d1 == d2 && n1 == n2
  }

  predicate IsDirectory(fs: Fs, inode: nat) {
    inode in fs.nodes && fs.nodes[inode].Directory?
  }

  predicate Lists(fs: Fs, directory: nat, name: string) {
    IsDirectory(fs, directory) && name in fs.nodes[directory].entries
  }

  predicate SingleFile(fs: Fs, inode: nat) {
    inode in fs.nodes && fs.nodes[inode].File? && fs.nodes[inode].attributes.links == 1
  }

  // ---------------------------------------------------------------- identities

  function DirectoryIdentity(fs: Fs, inode: nat): Option<Identity> {
    if IsDirectory(fs, inode) then Some(Identity(inode, fs.nodes[inode].attributes)) else None
  }

  function FileIdentity(fs: Fs, inode: nat): Option<Identity> {
    if SingleFile(fs, inode) then Some(Identity(inode, fs.nodes[inode].attributes)) else None
  }

  function EntryOf(fs: Fs, directory: nat, name: string): Option<nat> {
    if Lists(fs, directory, name) then Some(fs.nodes[directory].entries[name]) else None
  }

  function DirectoryEntry(fs: Fs, directory: nat, name: string): Option<Identity> {
    match EntryOf(fs, directory, name)
    case None => None
    case Some(inode) => DirectoryIdentity(fs, inode)
  }

  function FileEntry(fs: Fs, directory: nat, name: string): Option<Identity> {
    match EntryOf(fs, directory, name)
    case None => None
    case Some(inode) => FileIdentity(fs, inode)
  }

  predicate DistinctNames(entries: seq<Named>) {
    forall i, j :: 0 <= i < j < |entries| ==> entries[i].name != entries[j].name
  }

  function NameList(entries: seq<Named>): seq<string> {
    seq(|entries|, i requires 0 <= i < |entries| => entries[i].name)
  }

  /** A listing, sorted by name and with every entry a single regular file, is exactly the planned one. */
  predicate ListsExactly(fs: Fs, directory: nat, entries: seq<Named>) {
    && IsDirectory(fs, directory) && DistinctNames(entries) && IsSorted(NameList(entries))
    && (forall name :: name in fs.nodes[directory].entries ==>
          exists i :: 0 <= i < |entries| && entries[i].name == name)
    && forall i :: 0 <= i < |entries| ==> FileEntry(fs, directory, entries[i].name) == Some(entries[i].identity)
  }

  /** The bound directories still are what the plan says, by path, by descriptor and by entry. */
  predicate Bound(fs: Fs, plan: Plan) {
    && fs.downloads == Some(plan.downloads.inode)
    && DirectoryIdentity(fs, plan.downloads.inode) == Some(plan.downloads)
    && DirectoryEntry(fs, plan.downloads.inode, plan.rootName) == Some(plan.root)
  }

  // ---------------------------------------------------------------- removal

  function Touched(a: Attributes, clock: nat): Attributes {
    a.(modified := clock, changed := clock)
  }

  /** Removes an entry and the node it names, and touches the directory. */
  function Remove(fs: Fs, directory: nat, name: string): Fs
    requires Lists(fs, directory, name)
  {
    var node := fs.nodes[directory];
    var clock := fs.clock + 1;
    var updated := Directory(Touched(node.attributes, clock), node.entries - {name});
    fs.(nodes := (fs.nodes - {node.entries[name]})[directory := updated], clock := clock)
  }

  datatype Faults = Faults(remove: nat -> bool, sync: bool, removeRoot: bool, lastSync: bool)

  /** Removes the planned entries one by one, each checked again; stops at the first that differs or fails. */
  function RemoveEntries(fs: Fs, root: nat, entries: seq<Named>, k: nat, faults: Faults): (Fs, bool)
    requires k <= |entries|
    decreases |entries| - k
  {
    if k == |entries| then (fs, true)
    else if FileEntry(fs, root, entries[k].name) != Some(entries[k].identity) || faults.remove(k) then (fs, false)
    else RemoveEntries(Remove(fs, root, entries[k].name), root, entries, k + 1, faults)
  }

  /** A directory's own attributes change with its contents; these do not. */
  predicate SameObject(a: Identity, b: Identity) {
    a.inode == b.inode && a.attributes.mode == b.attributes.mode && a.attributes.links == b.attributes.links
  }

  function RemoveRoot(fs: Fs, plan: Plan, faults: Faults): (Fs, bool) {
    var entry := DirectoryEntry(fs, plan.downloads.inode, plan.rootName);
    if faults.sync || entry.None? || !SameObject(entry.value, plan.root) then (fs, false)
    else if faults.removeRoot || fs.nodes[entry.value.inode].entries != map[] then (fs, false)
    else (Remove(fs, plan.downloads.inode, plan.rootName), !faults.lastSync)
  }

  /** The cleanup; the hook stands for whatever happens once the descriptors are bound, or for its failure. */
  function CleanUp(fs: Fs, plan: Plan, hook: Fs -> Option<Fs>, faults: Faults): (Fs, bool) {
    if !Bound(fs, plan) then (fs, false)
    else
      match hook(fs)
      case None => (fs, false)
      case Some(changed) =>
        if !Bound(changed, plan) || !ListsExactly(changed, plan.root.inode, plan.entries) then (changed, false)
        else
          var emptied := RemoveEntries(changed, plan.root.inode, plan.entries, 0, faults);
          if emptied.1 then RemoveRoot(emptied.0, plan, faults) else (emptied.0, false)
  }

  method RemoveEntriesInTurn(fs: Fs, root: nat, entries: seq<Named>, faults: Faults) returns (left: Fs, ok: bool)
    ensures (left, ok) == RemoveEntries(fs, root, entries, 0, faults)
  {
    left := fs;
    for k := 0 to |entries|
      invariant RemoveEntries(fs, root, entries, 0, faults) == RemoveEntries(left, root, entries, k, faults)
    {
      if FileEntry(left, root, entries[k].name) != Some(entries[k].identity) || faults.remove(k) {
        return left, false;
      }
      left := Remove(left, root, entries[k].name);
    }
    ok := true;
  }

  // ---------------------------------------------------------------- what removal does

  /** The inodes of the first planned entries. */
  function Inodes(entries: seq<Named>, k: nat): set<nat>
    requires k <= |entries|
  {
    set i | 0 <= i < k :: entries[i].identity.inode
  }

  function Names(entries: seq<Named>, k: nat): set<string>
    requires k <= |entries|
  {
    set i | 0 <= i < k :: entries[i].name
  }

  /**
   Exactly the first planned entries are gone, with their files, and nothing else but the root's times has
   changed.
   */
  ghost predicate Removed(before: Fs, after: Fs, root: nat, entries: seq<Named>, k: nat)
    requires k <= |entries|
  {
    && IsDirectory(before, root) && IsDirectory(after, root)
    && after.downloads == before.downloads && after.records == before.records
    && after.nodes.Keys == before.nodes.Keys - Inodes(entries, k)
    && (forall i :: i in after.nodes && i != root ==> after.nodes[i] == before.nodes[i])
    && after.nodes[root].entries == before.nodes[root].entries - Names(entries, k)
    && after.nodes[root].attributes.mode == before.nodes[root].attributes.mode
    && after.nodes[root].attributes.links == before.nodes[root].attributes.links
    && (k == 0 ==> after == before)
  }

  lemma PlannedAreDistinct(fs: Fs, root: nat, entries: seq<Named>, i: nat, j: nat)
    requires Coherent(fs) && ListsExactly(fs, root, entries) && i < j < |entries|
    ensures entries[i].identity.inode != entries[j].identity.inode
  {
    assert FileEntry(fs, root, entries[i].name) == Some(entries[i].identity);
    assert FileEntry(fs, root, entries[j].name) == Some(entries[j].identity);
    assert Lists(fs, root, entries[i].name) && Lists(fs, root, entries[j].name);
  }

  /** After the first removals, the next planned entry is still what it was. */
  lemma NextIsUnchanged(before: Fs, fs: Fs, root: nat, entries: seq<Named>, k: nat)
    requires Coherent(before) && ListsExactly(before, root, entries) && k < |entries|
    requires Removed(before, fs, root, entries, k)
    ensures FileEntry(fs, root, entries[k].name) == Some(entries[k].identity)
  {
    assert FileEntry(before, root, entries[k].name) == Some(entries[k].identity);
    assert entries[k].name !in Names(entries, k);
    forall i | 0 <= i < k ensures entries[i].identity.inode != entries[k].identity.inode {
      PlannedAreDistinct(before, root, entries, i, k);
    }
  }

  /** Removing one entry, by what it changes. */
  lemma RemoveChanges(fs: Fs, directory: nat, name: string, inode: nat)
    requires Lists(fs, directory, name) && fs.nodes[directory].entries[name] == inode && inode != directory
    ensures var after := Remove(fs, directory, name);
            && after.downloads == fs.downloads && after.records == fs.records && IsDirectory(after, directory)
            && after.nodes.Keys == fs.nodes.Keys - {inode}
            && (forall i :: i in after.nodes && i != directory ==> after.nodes[i] == fs.nodes[i])
            && after.nodes[directory].entries == fs.nodes[directory].entries - {name}
            && after.nodes[directory].attributes.mode == fs.nodes[directory].attributes.mode
            && after.nodes[directory].attributes.links == fs.nodes[directory].attributes.links
  {
  }

  lemma OneMoreOf(entries: seq<Named>, k: nat)
    requires k < |entries|
    ensures Inodes(entries, k + 1) == Inodes(entries, k) + {entries[k].identity.inode}
    ensures Names(entries, k + 1) == Names(entries, k) + {entries[k].name}
  {
  }

  lemma LessOneMore(whole: Entries, gone: set<string>, name: string)
    ensures (whole - gone) - {name} == whole - (gone + {name})
  {
  }

  lemma OneMore(before: Fs, fs: Fs, root: nat, entries: seq<Named>, k: nat)
    requires Coherent(before) && ListsExactly(before, root, entries) && k < |entries|
    requires Removed(before, fs, root, entries, k)
    ensures Lists(fs, root, entries[k].name)
    ensures Removed(before, Remove(fs, root, entries[k].name), root, entries, k + 1)
  {
    hide Coherent, ListsExactly, Remove, Inodes, Names;
    NextIsUnchanged(before, fs, root, entries, k);
    RemoveChanges(fs, root, entries[k].name, entries[k].identity.inode);
    OneMoreOf(entries, k);
    LessOneMore(before.nodes[root].entries, Names(entries, k), entries[k].name);
  }

  /** Removal went from one entry to another, which either failed to be removed or is the end. */
  ghost predicate StoppedAt(before: Fs, end: (Fs, bool), root: nat, entries: seq<Named>, k: nat, n: nat, faults: Faults)
  {
    && k <= n <= |entries| && Removed(before, end.0, root, entries, n)
    && (end.1 <==> n == |entries|) && (n < |entries| ==> faults.remove(n))
    && forall i :: k <= i < n ==> !faults.remove(i)
  }

  /** Removal stops only where a removal fails, and what is gone is then a prefix of the plan. */
  lemma {:induction false} RemovesPrefix(before: Fs, fs: Fs, root: nat, entries: seq<Named>, k: nat, faults: Faults)
    requires Coherent(before) && ListsExactly(before, root, entries) && k <= |entries|
    requires Removed(before, fs, root, entries, k)
    ensures exists n: nat :: StoppedAt(before, RemoveEntries(fs, root, entries, k, faults), root, entries, k, n, faults)
    decreases |entries| - k
  {
    hide Coherent, ListsExactly, Removed, FileEntry, Remove;
    if k == |entries| {
      assert StoppedAt(before, RemoveEntries(fs, root, entries, k, faults), root, entries, k, k, faults);
    } else {
      NextIsUnchanged(before, fs, root, entries, k);
      if faults.remove(k) {
        assert StoppedAt(before, RemoveEntries(fs, root, entries, k, faults), root, entries, k, k, faults);
      } else {
        OneMore(before, fs, root, entries, k);
        var rest := Remove(fs, root, entries[k].name);
        RemovesPrefix(before, rest, root, entries, k + 1, faults);
        var end := RemoveEntries(rest, root, entries, k + 1, faults);
        var n: nat :| StoppedAt(before, end, root, entries, k + 1, n, faults);
        assert StoppedAt(before, RemoveEntries(fs, root, entries, k, faults), root, entries, k, n, faults);
      }
    }
  }

  predicate NoFaults(faults: Faults, n: nat) {
    !faults.sync && !faults.removeRoot && !faults.lastSync && forall i :: 0 <= i < n ==> !faults.remove(i)
  }

  /** The planned tree is gone as a whole, and nothing else: its entry, its root and its files. */
  ghost predicate TreeGone(before: Fs, after: Fs, plan: Plan) {
    && after.downloads == before.downloads && after.records == before.records
    && after.nodes.Keys == before.nodes.Keys - Inodes(plan.entries, |plan.entries|) - {plan.root.inode}
    && plan.downloads.inode in before.nodes && before.nodes[plan.downloads.inode].Directory?
    && plan.downloads.inode in after.nodes && after.nodes[plan.downloads.inode].Directory?
    && after.nodes[plan.downloads.inode].entries == before.nodes[plan.downloads.inode].entries - {plan.rootName}
    && forall i :: i in after.nodes && i != plan.downloads.inode ==> after.nodes[i] == before.nodes[i]
  }

  /** What can be left: everything, all but a first part of the planned entries, or all but the planned tree. */
  ghost predicate Partly(before: Fs, after: Fs, plan: Plan) {
    || TreeGone(before, after, plan)
    || exists n :: 0 <= n <= |plan.entries| && Removed(before, after, plan.root.inode, plan.entries, n)
  }

  /** The entries before the first failing removal are gone, or else all of them, or else the whole tree. */
  ghost predicate StopsWhereItFails(before: Fs, after: Fs, plan: Plan, faults: Faults) {
    var count := |plan.entries|;
    && (forall n :: 0 <= n < count && faults.remove(n) && (forall i :: 0 <= i < n ==> !faults.remove(i)) ==>
          Removed(before, after, plan.root.inode, plan.entries, n))
    && ((forall i :: 0 <= i < count ==> !faults.remove(i)) ==>
          if faults.sync || faults.removeRoot then Removed(before, after, plan.root.inode, plan.entries, count)
          else TreeGone(before, after, plan))
  }

  /** The downloads directory is not inside the tree that is removed. */
  predicate Apart(plan: Plan) {
    plan.downloads.inode != plan.root.inode
  }

  lemma EmptiedRoot(before: Fs, fs: Fs, plan: Plan, faults: Faults)
    requires Bound(before, plan) && Apart(plan) && ListsExactly(before, plan.root.inode, plan.entries)
    requires Removed(before, fs, plan.root.inode, plan.entries, |plan.entries|)
    ensures var end := RemoveRoot(fs, plan, faults);
            && (if faults.sync || faults.removeRoot then end.0 == fs else TreeGone(before, end.0, plan))
            && (end.1 <==> !faults.sync && !faults.removeRoot && !faults.lastSync)
  {
    var entries, root, downloads := plan.entries, plan.root.inode, plan.downloads.inode;
    assert fs.nodes[root].entries == map[] by {
      forall name | name in before.nodes[root].entries ensures name in Names(entries, |entries|) {
        var i :| 0 <= i < |entries| && entries[i].name == name;
      }
    }
    forall i | 0 <= i < |entries| ensures entries[i].identity.inode != downloads && entries[i].identity.inode != root {
      assert FileEntry(before, root, entries[i].name) == Some(entries[i].identity);
    }
    assert DirectoryEntry(fs, downloads, plan.rootName).Some?;
  }

  /**
   All or nothing: whatever the hook makes of the filesystem, if nothing fails afterwards, then either
   the call fails and nothing at all is removed, or it succeeds and exactly the planned tree is gone. It
   succeeds exactly if everything is still as planned and nothing fails. Failures can stop it part of the
   way, at a place that they determine, but never let it remove anything outside the plan.
   */
  lemma AllOrNothing(fs: Fs, plan: Plan, hook: Fs -> Option<Fs>, faults: Faults, changed: Fs)
    requires Bound(fs, plan) && hook(fs) == Some(changed) && Coherent(changed) && Apart(plan)
    ensures CleanUp(fs, plan, hook, faults).1 ==> TreeGone(changed, CleanUp(fs, plan, hook, faults).0, plan)
    ensures CleanUp(fs, plan, hook, faults).1
       <==> (&& NoFaults(faults, |plan.entries|)
             && Bound(changed, plan) && ListsExactly(changed, plan.root.inode, plan.entries))
    ensures Bound(changed, plan) && ListsExactly(changed, plan.root.inode, plan.entries) ==>
              StopsWhereItFails(changed, CleanUp(fs, plan, hook, faults).0, plan, faults)
    ensures NoFaults(faults, |plan.entries|) ==>
              (CleanUp(fs, plan, hook, faults).1
               <==> Bound(changed, plan) && ListsExactly(changed, plan.root.inode, plan.entries))
    ensures NoFaults(faults, |plan.entries|) && !CleanUp(fs, plan, hook, faults).1 ==>
              CleanUp(fs, plan, hook, faults).0 == changed
    ensures Bound(changed, plan) && ListsExactly(changed, plan.root.inode, plan.entries) ==>
              Partly(changed, CleanUp(fs, plan, hook, faults).0, plan)
    ensures !(Bound(changed, plan) && ListsExactly(changed, plan.root.inode, plan.entries)) ==>
              CleanUp(fs, plan, hook, faults).0 == changed
  {
    hide Coherent, RemoveRoot, TreeGone, Removed;
    if Bound(changed, plan) && ListsExactly(changed, plan.root.inode, plan.entries) {
      NothingRemoved(changed, plan.root.inode, plan.entries);
      RemovesPrefix(changed, changed, plan.root.inode, plan.entries, 0, faults);
      var emptied := RemoveEntries(changed, plan.root.inode, plan.entries, 0, faults);
      if emptied.1 {
        EmptiedRoot(changed, emptied.0, plan, faults);
      }
    }
  }

  lemma NothingRemoved(fs: Fs, root: nat, entries: seq<Named>)
    requires IsDirectory(fs, root)
    ensures Removed(fs, fs, root, entries, 0)
  {
    assert Inodes(entries, 0) == {} && Names(entries, 0) == {};
  }

  /** The root goes only if it is the planned directory still, by number, mode and links, and is empty. */
  lemma RootIsRemovedIff(fs: Fs, plan: Plan, faults: Faults)
    ensures var downloads, root := plan.downloads.inode, plan.root.inode;
            var removable := && Lists(fs, downloads, plan.rootName)
                             && fs.nodes[downloads].entries[plan.rootName] == root && IsDirectory(fs, root)
                             && fs.nodes[root].attributes.mode == plan.root.attributes.mode
                             && fs.nodes[root].attributes.links == plan.root.attributes.links
                             && fs.nodes[root].entries == map[] && !faults.sync && !faults.removeRoot;
            RemoveRoot(fs, plan, faults)
            == if removable then (Remove(fs, downloads, plan.rootName), !faults.lastSync) else (fs, false)
  {
  }

  // ---------------------------------------------------------------- the whole recovery

  datatype State = Missing | PreparingState | OrphanedState | MetadataState

  /** The classification by records alone, as far as recovery needs it. */
  function Classify(records: Records): State {
    if records.intent.Some? || records.intentTemporary || records.metadataTemporary then PreparingState
    else if records.metadata then MetadataState
    else if records.prepared then OrphanedState
    else Missing
  }

  const ROOT_PREFIX: string := ".whonix-extract-"

  predicate IsRootName(name: string) {
    |ROOT_PREFIX| <= |name| && name[..|ROOT_PREFIX|] == ROOT_PREFIX
  }

  /** The planned root is the only extraction root there is. */
  predicate OnlyRoot(fs: Fs, plan: Plan) {
    && Lists(fs, plan.downloads.inode, plan.rootName) && IsRootName(plan.rootName)
    && forall name :: name in fs.nodes[plan.downloads.inode].entries && IsRootName(name) ==> name == plan.rootName
  }

  /** Planning now gives this very plan, for the names of the allowlist. */
  predicate PlannedNow(fs: Fs, plan: Plan, allowed: set<string>) {
    && !fs.records.intentTemporary && !fs.records.metadata && !fs.records.metadataTemporary && !fs.records.prepared
    && fs.records.intent == Some(IntentFile(plan.intent, Some(plan.intentIdentity)))
    && plan.intent.preparing && plan.intent.pathsMatch
    && (plan.intent.root.None? || plan.intent.root == Some(plan.rootName))
    && Bound(fs, plan) && OnlyRoot(fs, plan)
    && ListsExactly(fs, plan.root.inode, plan.entries) && Names(plan.entries, |plan.entries|) == allowed
  }

  function ClearIntent(fs: Fs, fault: Fault): (Fs, bool) {
    if fs.records.intent.None? then (fs, true)
    else if fault == FailsBefore then (fs, false)
    else (fs.(records := fs.records.(intent := None)), fault == Works)
  }

  function Unchanged(fs: Fs): Option<Fs> {
    Some(fs)
  }

  /** Plans again, cleans up, and clears the intent only once the root is gone. */
  function Execute(fs: Fs, plan: Plan, allowed: set<string>, faults: Faults, clear: Fault): (Fs, bool) {
    if !PlannedNow(fs, plan, allowed) then (fs, false)
    else
      var cleaned := CleanUp(fs, plan, Unchanged, faults);
      if !cleaned.1 || Lists(cleaned.0, plan.downloads.inode, plan.rootName) then (cleaned.0, false)
      else
        var cleared := ClearIntent(cleaned.0, clear);
        (cleared.0, cleared.1 && Classify(cleared.0.records) == Missing)
  }

  lemma CleanUpKeepsRecords(fs: Fs, plan: Plan, faults: Faults)
    requires Bound(fs, plan) && Coherent(fs) && Apart(plan)
    ensures CleanUp(fs, plan, Unchanged, faults).0.records == fs.records
  {
    hide Coherent, Bound, ListsExactly, CleanUp;
    AllOrNothing(fs, plan, Unchanged, faults, fs);
  }

  /**
   The intent outlives the tree: however a recovery ends, the intent is still there unless exactly the
   planned tree is gone. A recovery succeeds exactly when planning again gives the same plan and nothing
   fails, and then nothing of the preparation is left.
   */
  lemma RecoverySucceedsIff(fs: Fs, plan: Plan, allowed: set<string>, faults: Faults, clear: Fault)
    requires Coherent(fs) && Apart(plan)
    ensures var end := Execute(fs, plan, allowed, faults, clear);
            && (fs.records.intent.Some? && end.0.records.intent.None? ==>
                  TreeGone(fs, end.0.(records := fs.records), plan))
            && (end.1 ==> Classify(end.0.records) == Missing && TreeGone(fs, end.0.(records := fs.records), plan))
            && (end.1 <==> NoFaults(faults, |plan.entries|) && clear == Works && PlannedNow(fs, plan, allowed))
            && (fs.records.intent.Some? ==>
                  (end.0.records.intent == None
                   <==> PlannedNow(fs, plan, allowed) && NoFaults(faults, |plan.entries|) && clear != FailsBefore))
  {
    hide Coherent, Bound, ListsExactly, CleanUp, OnlyRoot, NoFaults;
    if PlannedNow(fs, plan, allowed) {
      AllOrNothing(fs, plan, Unchanged, faults, fs);
      CleanUpKeepsRecords(fs, plan, faults);
    }
  }

  /** How records are classified: unfinished ones before complete ones, and these before an image without any. */
  lemma ClassifiedIff(records: Records)
    ensures Classify(records) == PreparingState
       <==> records.intent != None || records.intentTemporary || records.metadataTemporary
    ensures Classify(records) == MetadataState
       <==> records.metadata && records.intent == None && !records.intentTemporary && !records.metadataTemporary
    ensures Classify(records) == Missing <==> records == Records(None, false, false, false, false)
  {
  }

  /** A cleanup that finds other directories than planned, or whose hook fails, leaves all as it is. */
  lemma NotBegun(fs: Fs, plan: Plan, hook: Fs -> Option<Fs>, faults: Faults)
    ensures !Bound(fs, plan) || hook(fs) == None ==> CleanUp(fs, plan, hook, faults) == (fs, false)
  {
    hide Bound;
  }

  // ---------------------------------------------------------------- planning

  /** A single regular file under this name. */
  predicate HoldsFile(fs: Fs, directory: nat, name: string) {
    && Lists(fs, directory, name) && fs.nodes[directory].entries[name] in fs.nodes
    && var node := fs.nodes[fs.nodes[directory].entries[name]];
       node.File? && node.attributes.links == 1
  }

  /** The one extraction root in the downloads directory, whose files are those of the allowlist and no more. */
  predicate OneFullRoot(fs: Fs, downloads: nat, root: string, allowed: set<string>) {
    && Lists(fs, downloads, root) && IsRootName(root)
    && (forall name :: name in fs.nodes[downloads].entries && IsRootName(name) ==> name == root)
    && IsDirectory(fs, fs.nodes[downloads].entries[root])
    && fs.nodes[fs.nodes[downloads].entries[root]].entries.Keys == allowed
    && forall name :: name in allowed ==> HoldsFile(fs, fs.nodes[downloads].entries[root], name)
  }

  /** The records are those of a preparation that has got no further than its extraction. */
  predicate JustExtracted(records: Records) {
    && !records.intentTemporary && !records.metadata && !records.metadataTemporary && !records.prepared
    && records.intent.Some? && records.intent.value.identity.Some?
    && records.intent.value.intent.preparing && records.intent.value.intent.pathsMatch
  }

  /** When there is a plan at all, on the filesystem alone. */
  ghost predicate Recoverable(fs: Fs, allowed: set<string>) {
    && JustExtracted(fs.records) && fs.downloads.Some?
    && exists root ::
         && OneFullRoot(fs, fs.downloads.value, root, allowed)
         && fs.records.intent.value.intent.root in {None, Some(root)}
  }

  /** A set of names, in order. */
  ghost predicate InOrder(names: seq<string>, all: set<string>) {
    && IsSorted(names) && (forall name :: name in names <==> name in all)
    && forall i, j :: 0 <= i < j < |names| ==> names[i] != names[j]
  }

  lemma {:induction false} NamesInOrder(all: set<string>) returns (names: seq<string>)
    ensures InOrder(names, all)
    decreases all
  {
    if all == {} {
      names := [];
    } else {
      var name :| name in all;
      var rest := NamesInOrder(all - {name});
      names := Insert(name, rest);
      InsertSorts(name, rest);
      InsertsOnce(name, rest);
    }
  }

  lemma InsertsOnce(name: string, rest: seq<string>)
    requires IsSorted(rest) && name !in rest && forall i, j :: 0 <= i < j < |rest| ==> rest[i] != rest[j]
    ensures var all := Insert(name, rest);
            && (forall x :: x in all <==> x == name || x in rest)
            && forall i, j :: 0 <= i < j < |all| ==> all[i] != all[j]
  {
    InsertSorts(name, rest);
    var all := Insert(name, rest);
    forall x ensures x in all <==> x == name || x in rest {
      assert x in all <==> x in multiset(all);
      assert x in rest <==> x in multiset(rest);
    }
    forall i, j | 0 <= i < j < |all| ensures all[i] != all[j] {
      OnceEach(rest, all[i]);
      TwoPlaces(all, i, j);
    }
  }

  lemma {:induction false} OnceEach(s: seq<string>, x: string)
    requires forall i, j :: 0 <= i < j < |s| ==> s[i] != s[j]
    ensures multiset(s)[x] == if x in s then 1 else 0
  {
    if s != [] {
      OnceEach(s[1..], x);
      assert s == [s[0]] + s[1..];
      assert forall i :: 0 <= i < |s[1..]| ==> s[1..][i] == s[i + 1];
    }
  }

  lemma TwoPlaces(s: seq<string>, i: nat, j: nat)
    requires i < j < |s|
    ensures s[i] == s[j] ==> multiset(s)[s[i]] >= 2
  {
    assert s == s[..i] + [s[i]] + s[i + 1..j] + [s[j]] + s[j + 1..];
  }

  function FileNamed(fs: Fs, directory: nat, name: string): Named
    requires HoldsFile(fs, directory, name)
  {
    var file := fs.nodes[directory].entries[name];
    Named(name, Identity(file, fs.nodes[file].attributes))
  }

  /** The plan for a filesystem and a root, given the names in order. */
  function PlanOf(fs: Fs, root: string, names: seq<string>): Plan
    requires JustExtracted(fs.records) && fs.downloads.Some? && Lists(fs, fs.downloads.value, root)
    requires IsDirectory(fs, fs.nodes[fs.downloads.value].entries[root])
    requires forall i :: 0 <= i < |names| ==> HoldsFile(fs, fs.nodes[fs.downloads.value].entries[root], names[i])
  {
    var downloads := fs.downloads.value;
    var inode := fs.nodes[downloads].entries[root];
    Plan(root, fs.records.intent.value.intent, fs.records.intent.value.identity.value,
         Identity(downloads, fs.nodes[downloads].attributes), Identity(inode, fs.nodes[inode].attributes),
         seq(|names|, i requires 0 <= i < |names| && HoldsFile(fs, inode, names[i]) => FileNamed(fs, inode, names[i])))
  }

  lemma PlanIsPlanned(fs: Fs, root: string, names: seq<string>, allowed: set<string>)
    requires JustExtracted(fs.records) && fs.downloads.Some?
    requires OneFullRoot(fs, fs.downloads.value, root, allowed)
    requires fs.records.intent.value.intent.root in {None, Some(root)} && InOrder(names, allowed)
    ensures forall i :: 0 <= i < |names| ==> HoldsFile(fs, fs.nodes[fs.downloads.value].entries[root], names[i])
    ensures PlannedNow(fs, PlanOf(fs, root, names), allowed)
  {
    hide IsSorted, ROOT_PREFIX, IsRootName, ListsExactly, Names, HoldsFile;
    assert forall i :: 0 <= i < |names| ==> names[i] in allowed;
    var plan := PlanOf(fs, root, names);
    PlannedEntries(fs, plan.root.inode, names, plan.entries);
    NamesOfList(plan.entries, names, allowed);
  }

  lemma PlannedEntries(fs: Fs, directory: nat, names: seq<string>, entries: seq<Named>)
    requires IsDirectory(fs, directory) && InOrder(names, fs.nodes[directory].entries.Keys) && |entries| == |names|
    requires forall i :: 0 <= i < |names| ==>
               HoldsFile(fs, directory, names[i]) && entries[i] == FileNamed(fs, directory, names[i])
    ensures NameList(entries) == names && ListsExactly(fs, directory, entries)
  {
    hide IsSorted;
    forall name | name in fs.nodes[directory].entries
      ensures exists i :: 0 <= i < |entries| && entries[i].name == name {
      assert name in names;
      var i :| 0 <= i < |names| && names[i] == name;
      assert entries[i].name == name;
    }
  }

  lemma NamesOfList(entries: seq<Named>, names: seq<string>, all: set<string>)
    requires NameList(entries) == names && forall name :: name in names <==> name in all
    ensures Names(entries, |entries|) == all
  {
    assert forall i :: 0 <= i < |entries| ==> names[i] == entries[i].name;
    forall name | name in all ensures name in Names(entries, |entries|) {
      var i :| 0 <= i < |names| && names[i] == name;
      assert entries[i].name == name;
    }
    forall name | name in Names(entries, |entries|) ensures name in all {
      var i :| 0 <= i < |entries| && entries[i].name == name;
      assert names[i] in names;
    }
  }

  lemma PlannedIsRecoverable(fs: Fs, plan: Plan, allowed: set<string>)
    requires PlannedNow(fs, plan, allowed)
    ensures fs.downloads.Some? && OneFullRoot(fs, fs.downloads.value, plan.rootName, allowed)
    ensures Recoverable(fs, allowed)
  {
    hide IsSorted, ROOT_PREFIX, IsRootName;
    var inode := plan.root.inode;
    forall name | name in fs.nodes[inode].entries ensures name in allowed {
      var i :| 0 <= i < |plan.entries| && plan.entries[i].name == name;
      assert name in Names(plan.entries, |plan.entries|);
    }
    forall name | name in allowed ensures HoldsFile(fs, inode, name) {
      assert name in Names(plan.entries, |plan.entries|);
      var i :| 0 <= i < |plan.entries| && plan.entries[i].name == name;
      assert FileEntry(fs, inode, plan.entries[i].name) == Some(plan.entries[i].identity);
    }
  }

  /**
   When a recovery can be planned, on the filesystem alone: nothing is published or being written, and the
   intent is of a preparation whose one extraction root holds exactly the allowed files.
   */
  lemma PlanExistsIff(fs: Fs, allowed: set<string>)
    ensures (exists plan :: PlannedNow(fs, plan, allowed)) <==> Recoverable(fs, allowed)
  {
    hide PlannedNow, OneFullRoot;
    if plan :| PlannedNow(fs, plan, allowed) {
      PlannedIsRecoverable(fs, plan, allowed);
    }
    if Recoverable(fs, allowed) {
      var root :| && OneFullRoot(fs, fs.downloads.value, root, allowed)
                  && fs.records.intent.value.intent.root in {None, Some(root)};
      var names := NamesInOrder(allowed);
      PlanIsPlanned(fs, root, names, allowed);
    }
  }

  /** There is only one plan for what is there. */
  lemma PlanIsUnique(fs: Fs, a: Plan, b: Plan, allowed: set<string>)
    requires PlannedNow(fs, a, allowed) && PlannedNow(fs, b, allowed)
    ensures a == b
  {
    hide IsSorted, ROOT_PREFIX, IsRootName;
    var x, y := NameList(a.entries), NameList(b.entries);
    SameNames(a.entries, b.entries);
    SortedIsUnique(x, y);
    assert |x| == |a.entries| && |y| == |b.entries|;
    forall i | 0 <= i < |a.entries| ensures a.entries[i] == b.entries[i] {
      assert x[i] == a.entries[i].name && y[i] == b.entries[i].name;
      assert FileEntry(fs, a.root.inode, a.entries[i].name) == Some(a.entries[i].identity);
      assert FileEntry(fs, b.root.inode, b.entries[i].name) == Some(b.entries[i].identity);
    }
  }

  lemma SameNames(a: seq<Named>, b: seq<Named>)
    requires DistinctNames(a) && DistinctNames(b) && Names(a, |a|) == Names(b, |b|)
    ensures multiset(NameList(a)) == multiset(NameList(b))
  {
    forall x ensures multiset(NameList(a))[x] == multiset(NameList(b))[x] {
      OnceEach(NameList(a), x);
      OnceEach(NameList(b), x);
      ListedName(a, x);
      ListedName(b, x);
    }
  }

  lemma ListedName(entries: seq<Named>, x: string)
    ensures x in NameList(entries) <==> x in Names(entries, |entries|)
  {
    if x in NameList(entries) {
      var i :| 0 <= i < |entries| && NameList(entries)[i] == x;
      assert entries[i].name == x;
    }
    if x in Names(entries, |entries|) {
      var i :| 0 <= i < |entries| && entries[i].name == x;
      assert NameList(entries)[i] == x;
    }
  }

  /** What is checked of the two directories, one by one. */
  lemma BoundIff(fs: Fs, plan: Plan)
    ensures Bound(fs, plan)
       <==> (&& fs.downloads == Some(plan.downloads.inode)
             && plan.downloads.inode in fs.nodes && plan.root.inode in fs.nodes
             && fs.nodes[plan.downloads.inode].Directory? && fs.nodes[plan.root.inode].Directory?
             && fs.nodes[plan.downloads.inode].attributes == plan.downloads.attributes
             && fs.nodes[plan.root.inode].attributes == plan.root.attributes
             && plan.rootName in fs.nodes[plan.downloads.inode].entries
             && fs.nodes[plan.downloads.inode].entries[plan.rootName] == plan.root.inode)
  {
  }

  /** What is checked of the files: the directory lists them and no others, each as it was. */
  lemma ListedIff(fs: Fs, directory: nat, entries: seq<Named>)
    requires DistinctNames(entries) && IsSorted(NameList(entries))
    ensures ListsExactly(fs, directory, entries)
       <==> (&& directory in fs.nodes && fs.nodes[directory].Directory?
             && fs.nodes[directory].entries.Keys == Names(entries, |entries|)
             && forall i :: 0 <= i < |entries| ==>
                  && HoldsFile(fs, directory, entries[i].name)
                  && fs.nodes[directory].entries[entries[i].name] == entries[i].identity.inode
                  && fs.nodes[entries[i].identity.inode].attributes == entries[i].identity.attributes)
  {
    hide IsSorted;
    if ListsExactly(fs, directory, entries) {
      forall i | 0 <= i < |entries|
        ensures HoldsFile(fs, directory, entries[i].name)
        ensures fs.nodes[directory].entries[entries[i].name] == entries[i].identity.inode
        ensures fs.nodes[entries[i].identity.inode].attributes == entries[i].identity.attributes
      {
        assert FileEntry(fs, directory, entries[i].name) == Some(entries[i].identity);
      }
    }
  }

  // ---------------------------------------------------------------- recoveries that stop part of the way

  /** Where only that root was there before and no more is there now, any later plan is of the same root. */
  lemma SameRoot(before: Fs, after: Fs, plan: Plan, again: Plan, allowed: set<string>)
    requires PlannedNow(before, plan, allowed) && PlannedNow(after, again, allowed)
    requires after.downloads == before.downloads && IsDirectory(after, plan.downloads.inode)
    requires after.nodes[plan.downloads.inode].entries.Keys <= before.nodes[plan.downloads.inode].entries.Keys
    ensures again.downloads.inode == plan.downloads.inode && again.rootName == plan.rootName
    ensures plan.rootName in after.nodes[plan.downloads.inode].entries
    ensures after.nodes[plan.downloads.inode].entries[plan.rootName] == again.root.inode
  {
    hide ListsExactly, Names, ROOT_PREFIX;
  }

  /** A later plan has all the allowed entries, so the first one of this plan is there. */
  lemma FirstIsThere(after: Fs, plan: Plan, again: Plan, allowed: set<string>)
    requires PlannedNow(after, again, allowed) && plan.entries != []
    requires Names(plan.entries, |plan.entries|) == allowed
    ensures Lists(after, again.root.inode, plan.entries[0].name)
  {
    assert plan.entries[0].name in Names(again.entries, |again.entries|);
    var i :| 0 <= i < |again.entries| && again.entries[i].name == plan.entries[0].name;
    assert FileEntry(after, again.root.inode, again.entries[i].name).Some?;
  }

  lemma NoPlanWithoutFirst(before: Fs, after: Fs, plan: Plan, again: Plan, allowed: set<string>, n: nat)
    requires PlannedNow(before, plan, allowed) && Apart(plan) && 0 < n <= |plan.entries|
    requires Removed(before, after, plan.root.inode, plan.entries, n)
    ensures !PlannedNow(after, again, allowed)
  {
    if PlannedNow(after, again, allowed) {
      var downloads := plan.downloads.inode;
      assert IsDirectory(after, downloads) && after.nodes[downloads] == before.nodes[downloads];
      FirstIsThere(after, plan, again, allowed);
      assert plan.entries[0].name in Names(plan.entries, n);
      SameRoot(before, after, plan, again, allowed);
    }
  }

  lemma NoPlanWithoutTree(before: Fs, after: Fs, plan: Plan, again: Plan, allowed: set<string>)
    requires PlannedNow(before, plan, allowed) && TreeGone(before, after, plan)
    ensures !PlannedNow(after, again, allowed)
  {
    if PlannedNow(after, again, allowed) {
      SameRoot(before, after, plan, again, allowed);
    }
  }

  /**
   A recovery that has removed anything and has left the intent is never taken up again: whatever is
   planned later, planning from what is left does not give it, and executing it changes nothing.
   */
  lemma StoppedRecoveryStaysStopped(fs: Fs, plan: Plan, allowed: set<string>, faults: Faults, clear: Fault,
                                    again: Plan, later: Faults, laterClear: Fault)
    requires Coherent(fs) && Apart(plan)
    requires Execute(fs, plan, allowed, faults, clear).0 != fs
    requires Execute(fs, plan, allowed, faults, clear).0.records.intent.Some?
    ensures var left := Execute(fs, plan, allowed, faults, clear).0;
            !PlannedNow(left, again, allowed) && Execute(left, again, allowed, later, laterClear) == (left, false)
  {
    hide Coherent, ListsExactly, CleanUp, OnlyRoot, TreeGone, Removed;
    var left := CleanUp(fs, plan, Unchanged, faults).0;
    AllOrNothing(fs, plan, Unchanged, faults, fs);
    CleanUpKeepsRecords(fs, plan, faults);
    assert Execute(fs, plan, allowed, faults, clear).0 == left;
    if TreeGone(fs, left, plan) {
      NoPlanWithoutTree(fs, left, plan, again, allowed);
    } else {
      var n :| 0 <= n <= |plan.entries| && Removed(fs, left, plan.root.inode, plan.entries, n);
      assert n > 0 by { NothingRemovedIsSame(fs, left, plan.root.inode, plan.entries, n); }
      NoPlanWithoutFirst(fs, left, plan, again, allowed, n);
    }
  }

  lemma NothingRemovedIsSame(before: Fs, after: Fs, root: nat, entries: seq<Named>, n: nat)
    requires n <= |entries| && Removed(before, after, root, entries, n) && after != before
    ensures n > 0
  {
  }

  const SAMPLE_ATTRIBUTES: Attributes := Attributes(0, 0, 0, 0, 1)

  const SAMPLE_INTENT: Intent := Intent(true, true, None)

  /** The downloads directory with one extraction root, and one file in it. */
  function SampleFs(): Fs {
    Fs(map[1 := Directory(SAMPLE_ATTRIBUTES, map[ROOT_PREFIX := 2]),
           2 := Directory(SAMPLE_ATTRIBUTES, map["a" := 3]),
           3 := File(SAMPLE_ATTRIBUTES)],
       Some(1),
       Records(Some(IntentFile(SAMPLE_INTENT, Some(Identity(4, SAMPLE_ATTRIBUTES)))), false, false, false, false), 0)
  }

  function SamplePlan(): Plan {
    Plan(ROOT_PREFIX, SAMPLE_INTENT, Identity(4, SAMPLE_ATTRIBUTES), Identity(1, SAMPLE_ATTRIBUTES),
         Identity(2, SAMPLE_ATTRIBUTES), [Named("a", Identity(3, SAMPLE_ATTRIBUTES))])
  }

  /** Only the synchronisation of the emptied root fails. */
  function SampleFaults(): Faults {
    Faults(_ => false, true, false, false)
  }

  lemma SampleIsPlanned()
    ensures PlannedNow(SampleFs(), SamplePlan(), {"a"}) && Coherent(SampleFs()) && Apart(SamplePlan())
  {
    hide OnlyRoot, ListsExactly, Names, Coherent, ROOT_PREFIX;
    SampleIsListed();
    SampleIsCoherent();
    SampleNames();
  }

  lemma SampleIsListed()
    ensures OnlyRoot(SampleFs(), SamplePlan()) && ListsExactly(SampleFs(), 2, SamplePlan().entries)
  {
    hide ROOT_PREFIX;
    var entries := SamplePlan().entries;
    assert |entries| == 1 && entries[0].name == "a";
    assert forall name :: name in SampleFs().nodes[2].entries ==> name == entries[0].name;
  }

  lemma SampleIsCoherent()
    ensures Coherent(SampleFs())
  {
    hide ROOT_PREFIX;
  }

  lemma SampleNames()
    ensures Names(SamplePlan().entries, 1) == {"a"}
  {
    hide ROOT_PREFIX;
    var entries := SamplePlan().entries;
    assert |entries| == 1 && entries[0].name == "a";
    assert entries[0].name in Names(entries, 1);
  }

  lemma SampleIsLeft()
    ensures var left := CleanUp(SampleFs(), SamplePlan(), Unchanged, SampleFaults());
            !left.1 && left.0 == Remove(SampleFs(), 2, "a") && left.0 != SampleFs()
  {
    SampleIsPlanned();
    var fs, plan, faults := SampleFs(), SamplePlan(), SampleFaults();
    var left := Remove(fs, 2, "a");
    assert left.clock == 1;
    assert RemoveEntries(left, 2, plan.entries, 1, faults) == (left, true);
    assert RemoveEntries(fs, 2, plan.entries, 0, faults) == (left, true);
  }

  /** A recovery that stops after its first removal, and of which no later one succeeds. */
  lemma RecoveryThatStops(again: Plan, later: Faults, laterClear: Fault)
    ensures var left := Execute(SampleFs(), SamplePlan(), {"a"}, SampleFaults(), Works);
            && PlannedNow(SampleFs(), SamplePlan(), {"a"}) && !left.1 && left.0 != SampleFs()
            && Execute(left.0, again, {"a"}, later, laterClear) == (left.0, false)
  {
    hide PlannedNow, Coherent, CleanUp, SamplePlan, SampleFaults;
    SampleIsPlanned();
    SampleIsLeft();
    StoppedRecoveryStaysStopped(SampleFs(), SamplePlan(), {"a"}, SampleFaults(), Works, again, later, laterClear);
  }
}
