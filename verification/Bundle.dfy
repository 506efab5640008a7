/** The bundle of a release: the layout that the listing of its archive must have, entry by entry. */
module Bundle {
  import opened Results

  datatype ArtifactRole = GatewayDisk | GatewayXml | WorkstationDisk | WorkstationXml | License | Disclaimer

  datatype EntryKind = RegularFile | Directory | SymbolicLink | HardLink | Other

  datatype Entry = Entry(path: string, kind: EntryKind)

  /** Text that stands for a role: a file name of the layout, or a digest. */
  datatype Labelled = Labelled(role: ArtifactRole, text: string)

  datatype BundleError = WrongCount | Unsafe | Unexpected | Duplicate | Incomplete | BadSignature

  const RELEASE: string := "18.2.1.9"
  const PLATFORM: string := ".Intel_AMD64.qcow2"

  /** The complete flat layout, in the order of its roles. */
  const LAYOUT: seq<Labelled> := [
    Labelled(GatewayDisk, "Whonix-Gateway-LXQt-" + RELEASE + PLATFORM),
    Labelled(GatewayXml, "Whonix-Gateway.xml"),
    Labelled(WorkstationDisk, "Whonix-Workstation-LXQt-" + RELEASE + PLATFORM),
    Labelled(WorkstationXml, "Whonix-Workstation.xml"),
    Labelled(License, "WHONIX_BINARY_LICENSE_AGREEMENT"),
    Labelled(Disclaimer, "WHONIX_DISCLAIMER")]

  function Rank(role: ArtifactRole): nat {
    match role
    case GatewayDisk => 0
    case GatewayXml => 1
    case WorkstationDisk => 2
    case WorkstationXml => 3
    case License => 4
    case Disclaimer => 5
  }

  // ---------------------------------------------------------------- the allowlist

  predicate Separator(c: char) {
    c == '/' || c == '\\'
  }

  /** The components of a path between separators of either kind. */
  function Components(path: string): seq<string> {
    if path == "" then [""]
    else
      var rest := Components(path[1..]);
      if Separator(path[0]) then [""] + rest
      else if rest == [] then [[path[0]]]
      else [[path[0]] + rest[0]] + rest[1..]
  }

  /** Rooted, with a drive letter, or with an empty or dotted component. */
  predicate UnsafePath(path: string) {
    || (path != "" && Separator(path[0]))
    || (|path| > 1 && path[0] < '\U{80}' && path[1] == ':')
    || exists c :: c in Components(path) && (c == "" || c == "." || c == "..")
  }

  predicate HasSeparator(path: string) {
    exists i :: 0 <= i < |path| && Separator(path[i])
  }

  function FindLabelled(layout: seq<Labelled>, path: string): Option<Labelled> {
    if layout == [] then None
    else if layout[0].text == path then Some(layout[0])
    else FindLabelled(layout[1..], path)
  }

  predicate HasRole(identified: seq<Labelled>, role: ArtifactRole) {
    exists i :: 0 <= i < |identified| && identified[i].role == role
  }

  function Identify(entry: Entry, identified: seq<Labelled>): Result<seq<Labelled>, BundleError> {
    if entry.kind != RegularFile || UnsafePath(entry.path) || HasSeparator(entry.path) then Failure(Unsafe)
    else
      match FindLabelled(LAYOUT, entry.path)
      case None => Failure(Unexpected)
      case Some(contract) =>
        if HasRole(identified, contract.role) then Failure(Duplicate)
        else Success(identified + [Labelled(contract.role, entry.path)])
  }

  function IdentifyAll(entries: seq<Entry>, identified: seq<Labelled>): Result<seq<Labelled>, BundleError> {
    if entries == [] then Success(identified)
    else
      match Identify(entries[0], identified)
      case Failure(error) => Failure(error)
      case Success(next) => IdentifyAll(entries[1..], next)
  }

  function InsertByRole(c: Labelled, sorted: seq<Labelled>): seq<Labelled> {
    if sorted == [] || Rank(c.role) <= Rank(sorted[0].role) then [c] + sorted
    else [sorted[0]] + InsertByRole(c, sorted[1..])
  }

  /** The stable sort by role. */
  function SortByRole(cs: seq<Labelled>): seq<Labelled> {
    if cs == [] then [] else InsertByRole(cs[0], SortByRole(cs[1..]))
  }

  function ValidateEntries(entries: seq<Entry>): Result<seq<Labelled>, BundleError> {
    if |entries| != |LAYOUT| then Failure(WrongCount)
    else
      match IdentifyAll(entries, [])
      case Failure(error) => Failure(error)
      case Success(identified) => Success(SortByRole(identified))
  }

  method ValidateBundleEntries(entries: seq<Entry>) returns (result: Result<seq<Labelled>, BundleError>)
    ensures result == ValidateEntries(entries)
  {
    hide Identify, SortByRole;
    if |entries| != |LAYOUT| {
      return Failure(WrongCount);
    }
    var identified: seq<Labelled> := [];
    var i := 0;
    assert entries[0..] == entries;
    while i < |entries|
      invariant i <= |entries|
      invariant IdentifyAll(entries, []) == IdentifyAll(entries[i..], identified)
    {
      var next := Identify(entries[i], identified);
      assert entries[i..][1..] == entries[i + 1..];
      if next.Failure? {
        return Failure(next.error);
      }
      identified := next.value;
      i := i + 1;
    }
    result := Success(SortByRole(identified));
  }

  // ---------------------------------------------------------------- what the allowlist accepts

  /** The layout as the listing of an intact archive. */
  function Listing(cs: seq<Labelled>): seq<Entry> {
    if cs == [] then [] else [Entry(cs[0].text, RegularFile)] + Listing(cs[1..])
  }

  lemma {:induction false} FindLabelledFinds(layout: seq<Labelled>, path: string)
    ensures FindLabelled(layout, path).Some? ==>
              FindLabelled(layout, path).value in layout && FindLabelled(layout, path).value.text == path
    ensures FindLabelled(layout, path).None? ==> forall c :: c in layout ==> c.text != path
  {
    if layout != [] {
      FindLabelledFinds(layout[1..], path);
      assert layout == [layout[0]] + layout[1..];
    }
  }

  predicate DistinctRoles(cs: seq<Labelled>) {
    forall i, j :: 0 <= i < j < |cs| ==> cs[i].role != cs[j].role
  }

  predicate WithinLayout(cs: seq<Labelled>) {
    forall i :: 0 <= i < |cs| ==> cs[i] in LAYOUT
  }

  lemma RolesOfLayout()
    ensures |LAYOUT| == 6 && DistinctRoles(LAYOUT)
    ensures forall i :: 0 <= i < 6 ==> Rank(LAYOUT[i].role) == i
    ensures forall role :: LAYOUT[Rank(role)].role == role
  {
  }

  /** A layout element is determined by its role. */
  lemma RoleDetermines(a: Labelled, b: Labelled)
    requires a in LAYOUT && b in LAYOUT && a.role == b.role
    ensures a == b
  {
    hide LAYOUT;
    RolesOfLayout();
    var i :| 0 <= i < |LAYOUT| && LAYOUT[i] == a;
    var j :| 0 <= j < |LAYOUT| && LAYOUT[j] == b;
  }

  lemma {:induction false} IdentifiedAre(entries: seq<Entry>, identified: seq<Labelled>)
    requires IdentifyAll(entries, identified).Success? && DistinctRoles(identified) && WithinLayout(identified)
    ensures var all := IdentifyAll(entries, identified).value;
            && |all| == |identified| + |entries| && DistinctRoles(all) && WithinLayout(all)
            && all[..|identified|] == identified
            && Listing(all[|identified|..]) == entries
  {
    hide LAYOUT, UnsafePath, HasSeparator;
    var all := IdentifyAll(entries, identified).value;
    if entries == [] {
      assert all[|identified|..] == [];
    } else {
      var next := Identify(entries[0], identified).value;
      FindLabelledFinds(LAYOUT, entries[0].path);
      IdentifiedAre(entries[1..], next);
      assert next[|next| - 1] == all[|identified|];
      assert all[|identified|..][1..] == all[|next|..];
      assert all[..|identified|] == all[..|next|][..|identified|];
    }
  }

  /** The roles met so far: without repetition, as many as there are elements. */
  function RanksOf(cs: seq<Labelled>): set<nat> {
    set i | 0 <= i < |cs| :: Rank(cs[i].role)
  }

  lemma {:induction false} AsManyRanks(cs: seq<Labelled>)
    requires DistinctRoles(cs)
    ensures |RanksOf(cs)| == |cs| && forall r :: r in RanksOf(cs) ==> r < 6
  {
    hide Rank;
    if cs != [] {
      hide RanksOf;
      var front, last := cs[..|cs| - 1], cs[|cs| - 1];
      assert cs == front + [last];
      RankBound(last.role);
      AsManyRanks(front);
      RanksOfAppend(front, last);
      RankIsNew(front, last);
    }
  }

  lemma RankIsNew(front: seq<Labelled>, last: Labelled)
    requires DistinctRoles(front + [last])
    ensures Rank(last.role) !in RanksOf(front)
  {
    hide Rank;
    forall i | 0 <= i < |front| ensures Rank(front[i].role) != Rank(last.role) {
      assert front[i] == (front + [last])[i] && (front + [last])[|front|] == last;
      RanksDiffer(front[i].role, last.role);
    }
  }

  lemma RankBound(role: ArtifactRole)
    ensures Rank(role) < 6
  {
  }

  lemma RanksOfAppend(front: seq<Labelled>, last: Labelled)
    ensures RanksOf(front + [last]) == RanksOf(front) + {Rank(last.role)}
  {
    hide Rank;
    var cs := front + [last];
    forall r | r in RanksOf(cs) ensures r in RanksOf(front) + {Rank(last.role)} {
      var i :| 0 <= i < |cs| && Rank(cs[i].role) == r;
      assert i < |front| ==> front[i] == cs[i];
    }
    forall r | r in RanksOf(front) ensures r in RanksOf(cs) {
      var i :| 0 <= i < |front| && Rank(front[i].role) == r;
      assert cs[i] == front[i];
    }
    assert cs[|front|] == last;
  }

  lemma RanksDiffer(a: ArtifactRole, b: ArtifactRole)
    ensures Rank(a) == Rank(b) <==> a == b
  {
  }

  lemma {:induction false} BoundedSet(s: set<nat>, n: nat)
    requires forall r :: r in s ==> r < n
    ensures |s| <= n && (|s| == n ==> forall r: nat :: r < n ==> r in s)
  {
    if n == 0 {
      assert s == {};
    } else {
      var smaller := s - {n - 1};
      BoundedSet(smaller, n - 1);
      if n - 1 in s {
        assert s == smaller + {n - 1};
      } else {
        assert s == smaller;
      }
    }
  }

  /** Six different roles are all of them, so the sorted list is the layout itself. */
  lemma SortedIsLayout(cs: seq<Labelled>)
    requires |cs| == 6 && DistinctRoles(cs) && WithinLayout(cs)
    ensures SortByRole(cs) == LAYOUT && multiset(cs) == multiset(LAYOUT)
  {
    hide LAYOUT;
    AsManyRanks(cs);
    BoundedSet(RanksOf(cs), 6);
    RolesOfLayout();
    SortsByRole(cs);
    var sorted := SortByRole(cs);
    forall i | 0 <= i < |sorted| ensures sorted[i] in LAYOUT {
      assert sorted[i] in multiset(sorted);
      assert sorted[i] in cs;
    }
    SortedRoles(cs, sorted);
    AscendingIsLayout(sorted);
  }

  predicate Ascending(cs: seq<Labelled>) {
    forall i, j :: 0 <= i < j < |cs| ==> Rank(cs[i].role) <= Rank(cs[j].role)
  }

  lemma {:induction false} InsertsByRole(c: Labelled, sorted: seq<Labelled>)
    requires Ascending(sorted)
    ensures Ascending(InsertByRole(c, sorted)) && multiset(InsertByRole(c, sorted)) == multiset(sorted) + multiset{c}
    ensures |InsertByRole(c, sorted)| == |sorted| + 1
  {
    hide Rank, Ascending;
    InsertAddsOne(c, sorted);
    if sorted != [] {
      var head, rest := sorted[0], sorted[1..];
      assert sorted == [head] + rest;
      AscendingParts(head, rest);
      if Rank(c.role) > Rank(head.role) {
        InsertsByRole(c, rest);
        NoneBelow(head, c, rest, InsertByRole(c, rest));
        AscendingCons(head, InsertByRole(c, rest));
      } else {
        AscendingCons(c, sorted);
      }
    } else {
      AscendingCons(c, []);
    }
  }

  lemma {:induction false} InsertAddsOne(c: Labelled, sorted: seq<Labelled>)
    ensures multiset(InsertByRole(c, sorted)) == multiset(sorted) + multiset{c}
    ensures |InsertByRole(c, sorted)| == |sorted| + 1
  {
    hide Rank;
    if sorted != [] && Rank(c.role) > Rank(sorted[0].role) {
      var head, inserted := sorted[0], InsertByRole(c, sorted[1..]);
      InsertAddsOne(c, sorted[1..]);
      assert sorted == [head] + sorted[1..];
      assert multiset([head] + inserted) == multiset{head} + multiset(inserted);
    }
  }

  lemma NoneBelow(head: Labelled, c: Labelled, rest: seq<Labelled>, inserted: seq<Labelled>)
    requires multiset(inserted) == multiset(rest) + multiset{c}
    requires Rank(head.role) <= Rank(c.role) && forall i :: 0 <= i < |rest| ==> Rank(head.role) <= Rank(rest[i].role)
    ensures forall i :: 0 <= i < |inserted| ==> Rank(head.role) <= Rank(inserted[i].role)
  {
    hide Rank;
    forall i | 0 <= i < |inserted| ensures Rank(head.role) <= Rank(inserted[i].role) {
      assert inserted[i] in multiset(inserted);
      assert inserted[i] == c || inserted[i] in rest;
    }
  }

  lemma AscendingParts(head: Labelled, rest: seq<Labelled>)
    requires Ascending([head] + rest)
    ensures Ascending(rest) && forall i :: 0 <= i < |rest| ==> Rank(head.role) <= Rank(rest[i].role)
    ensures forall i :: 0 <= i < |[head] + rest| ==> Rank(head.role) <= Rank(([head] + rest)[i].role)
  {
    hide Rank;
    var all := [head] + rest;
    forall i, j | 0 <= i < j < |rest| ensures Rank(rest[i].role) <= Rank(rest[j].role) {
      assert rest[i] == all[i + 1] && rest[j] == all[j + 1];
    }
    forall i | 0 <= i < |rest| ensures Rank(head.role) <= Rank(rest[i].role) {
      assert rest[i] == all[i + 1] && all[0] == head;
    }
    assert forall i :: 0 < i < |all| ==> all[i] == rest[i - 1];
  }

  lemma AscendingCons(c: Labelled, sorted: seq<Labelled>)
    requires Ascending(sorted) && forall i :: 0 <= i < |sorted| ==> Rank(c.role) <= Rank(sorted[i].role)
    ensures Ascending([c] + sorted)
  {
    hide Rank;
  }

  lemma {:induction false} SortsByRole(cs: seq<Labelled>)
    ensures Ascending(SortByRole(cs)) && multiset(SortByRole(cs)) == multiset(cs) && |SortByRole(cs)| == |cs|
  {
    hide Rank, InsertByRole;
    if cs != [] {
      hide Ascending;
      SortsByRole(cs[1..]);
      InsertsByRole(cs[0], SortByRole(cs[1..]));
      assert cs == [cs[0]] + cs[1..];
    }
  }

  /** A permutation of distinct roles has distinct roles. */
  lemma SortedRoles(cs: seq<Labelled>, sorted: seq<Labelled>)
    requires DistinctRoles(cs) && multiset(sorted) == multiset(cs) && WithinLayout(sorted) && |sorted| == |cs|
    ensures DistinctRoles(sorted)
  {
    forall i, j | 0 <= i < j < |sorted| ensures sorted[i].role != sorted[j].role {
      if sorted[i].role == sorted[j].role {
        RoleDetermines(sorted[i], sorted[j]);
        TwiceInSequence(sorted, i, j);
        OnceInSequence(cs, sorted[i]);
      }
    }
  }

  lemma TwiceInSequence(s: seq<Labelled>, i: nat, j: nat)
    requires i < j < |s| && s[i] == s[j]
    ensures multiset(s)[s[i]] >= 2
  {
    assert s == s[..i] + [s[i]] + s[i + 1..j] + [s[j]] + s[j + 1..];
  }

  lemma {:induction false} OnceInSequence(s: seq<Labelled>, c: Labelled)
    requires DistinctRoles(s)
    ensures multiset(s)[c] <= 1
  {
    if s != [] {
      var front, last := s[..|s| - 1], s[|s| - 1];
      OnceInSequence(front, c);
      assert s == front + [last];
      assert forall i :: 0 <= i < |front| ==> front[i].role != last.role;
    }
  }

  lemma AscendingIsLayout(sorted: seq<Labelled>)
    requires |sorted| == 6 && Ascending(sorted) && DistinctRoles(sorted) && WithinLayout(sorted)
    ensures sorted == LAYOUT
  {
    hide LAYOUT;
    RolesOfLayout();
    forall i, j | 0 <= i < j < 6 ensures Rank(sorted[i].role) < Rank(sorted[j].role) {
      RanksDiffer(sorted[i].role, sorted[j].role);
    }
    forall i | 0 <= i < 6 ensures sorted[i] == LAYOUT[i] {
      assert Rank(sorted[0].role) < Rank(sorted[1].role) < Rank(sorted[2].role) < Rank(sorted[3].role)
        < Rank(sorted[4].role) < Rank(sorted[5].role) < 6;
      assert Rank(sorted[i].role) == i;
      RanksDiffer(sorted[i].role, LAYOUT[i].role);
      RoleDetermines(sorted[i], LAYOUT[i]);
    }
  }

  lemma {:induction false} ListingAppend(a: seq<Labelled>, b: seq<Labelled>)
    ensures Listing(a + b) == Listing(a) + Listing(b)
  {
    if a == [] {
      assert a + b == b;
    } else {
      assert (a + b)[1..] == a[1..] + b;
      ListingAppend(a[1..], b);
    }
  }

  /** The listing of a permutation is a permutation of the listing. */
  lemma {:induction false} ListingPermutes(a: seq<Labelled>, b: seq<Labelled>)
    requires multiset(a) == multiset(b)
    ensures multiset(Listing(a)) == multiset(Listing(b))
  {
    if a == [] {
      assert |multiset(b)| == 0;
    } else {
      var head, tail := a[0], a[1..];
      assert a == [head] + tail;
      assert head in multiset(b);
      var i :| 0 <= i < |b| && b[i] == head;
      var before, after := b[..i], b[i + 1..];
      assert b == before + [head] + after;
      assert multiset(b) == multiset{head} + multiset(before + after);
      assert multiset(a) == multiset{head} + multiset(tail);
      SameRest(head, multiset(tail), multiset(before + after));
      ListingPermutes(tail, before + after);
      ListingWithin(before, head, after);
    }
  }

  lemma SameRest(head: Labelled, a: multiset<Labelled>, b: multiset<Labelled>)
    requires multiset{head} + a == multiset{head} + b
    ensures a == b
  {
    assert a == (multiset{head} + a) - multiset{head};
    assert b == (multiset{head} + b) - multiset{head};
  }

  lemma ListingWithin(before: seq<Labelled>, head: Labelled, after: seq<Labelled>)
    ensures multiset(Listing(before + [head] + after))
         == multiset{Entry(head.text, RegularFile)} + multiset(Listing(before + after))
  {
    ListingAppend(before, after);
    ListingAppend(before + [head], after);
    ListingAppend(before, [head]);
    assert [head][1..] == [];
    assert Listing([head]) == [Entry(head.text, RegularFile)];
  }

  lemma {:induction false} ListingHas(cs: seq<Labelled>)
    ensures |Listing(cs)| == |cs| && forall i :: 0 <= i < |cs| ==> Listing(cs)[i] == Entry(cs[i].text, RegularFile)
  {
    if cs != [] {
      ListingHas(cs[1..]);
    }
  }

  lemma {:induction false} OneComponent(path: string)
    requires !HasSeparator(path)
    ensures Components(path) == [path]
  {
    if path != "" {
      assert !Separator(path[0]);
      assert forall i :: 0 <= i < |path[1..]| ==> path[1..][i] == path[i + 1];
      OneComponent(path[1..]);
      assert [path[0]] + path[1..] == path;
    }
  }

  predicate WithoutSeparators(path: string) {
    forall i :: 0 <= i < |path| ==> path[i] != '/' && path[i] != '\\'
  }

  predicate Flat(path: string) {
    |path| > 2 && path[1] != ':' && WithoutSeparators(path)
  }

  lemma FlatIsSafe(path: string)
    requires Flat(path)
    ensures !UnsafePath(path) && !HasSeparator(path)
  {
    OneComponent(path);
  }

  lemma DiskParts()
    ensures Flat("Whonix-Gateway-LXQt-") && Flat("Whonix-Workstation-LXQt-")
    ensures WithoutSeparators(RELEASE) && WithoutSeparators(PLATFORM)
  {
  }

  lemma DisksAreFlat()
    ensures Flat("Whonix-Gateway-LXQt-" + RELEASE + PLATFORM) && Flat("Whonix-Workstation-LXQt-" + RELEASE + PLATFORM)
  {
    DiskParts();
    FlatJoins("Whonix-Gateway-LXQt-", RELEASE, PLATFORM);
    FlatJoins("Whonix-Workstation-LXQt-", RELEASE, PLATFORM);
  }

  lemma FlatJoins(a: string, b: string, c: string)
    requires Flat(a) && WithoutSeparators(b) && WithoutSeparators(c)
    ensures Flat(a + b + c)
  {
  }

  lemma DocumentsAreFlat()
    ensures Flat("Whonix-Gateway.xml") && Flat("Whonix-Workstation.xml")
    ensures Flat("WHONIX_BINARY_LICENSE_AGREEMENT") && Flat("WHONIX_DISCLAIMER")
  {
  }

  lemma LayoutIsFlat()
    ensures forall i :: 0 <= i < |LAYOUT| ==> Flat(LAYOUT[i].text)
  {
    hide Flat;
    DisksAreFlat();
    DocumentsAreFlat();
  }

  /** Different paths in the layout; the names differ already in length, or at one character. */
  lemma PathsDiffer(a: Labelled, b: Labelled)
    requires a in LAYOUT && b in LAYOUT && a.text == b.text
    ensures a == b
  {
    assert forall i, j :: 0 <= i < j < |LAYOUT| ==> |LAYOUT[i].text| != |LAYOUT[j].text|;
  }

  predicate AreListed(entries: seq<Entry>) {
    forall i :: 0 <= i < |entries| ==>
      entries[i].kind == RegularFile && exists c :: c in LAYOUT && c.text == entries[i].path
  }

  predicate AllDifferent(entries: seq<Entry>) {
    forall i, j :: 0 <= i < j < |entries| ==> entries[i] != entries[j]
  }

  predicate NotYet(entries: seq<Entry>, identified: seq<Labelled>) {
    forall i, j :: 0 <= i < |entries| && 0 <= j < |identified| ==> entries[i].path != identified[j].text
  }

  lemma ListedIsIdentified(entry: Entry, identified: seq<Labelled>)
    requires AreListed([entry]) && WithinLayout(identified) && NotYet([entry], identified)
    ensures Identify(entry, identified).Success?
    ensures exists c :: c in LAYOUT && c.text == entry.path && Identify(entry, identified).value == identified + [c]
  {
    hide LAYOUT, UnsafePath, HasSeparator, Flat;
    LayoutIsFlat();
    FindLabelledFinds(LAYOUT, entry.path);
    assert [entry][0] == entry;
    var c := FindLabelled(LAYOUT, entry.path).value;
    FlatIsSafe(c.text);
    forall j | 0 <= j < |identified| ensures identified[j].role != c.role {
      assert [entry][0].path != identified[j].text;
      if identified[j].role == c.role {
        RoleDetermines(identified[j], c);
      }
    }
    assert Labelled(c.role, entry.path) == c;
  }

  lemma {:induction false} ListedAreIdentified(entries: seq<Entry>, identified: seq<Labelled>)
    requires AreListed(entries) && AllDifferent(entries) && WithinLayout(identified) && NotYet(entries, identified)
    ensures IdentifyAll(entries, identified).Success?
  {
    hide LAYOUT, Identify;
    if entries != [] {
      var rest := entries[1..];
      assert [entries[0]][0] == entries[0];
      ListedIsIdentified(entries[0], identified);
      var next := Identify(entries[0], identified).value;
      forall i, j | 0 <= i < |rest| && 0 <= j < |next| ensures rest[i].path != next[j].text {
        assert rest[i] == entries[i + 1] && entries[i + 1] != entries[0];
        assert entries[0].kind == entries[i + 1].kind == RegularFile;
        if j < |identified| {
          assert next[j] == identified[j];
        }
      }
      ListedAreIdentified(rest, next);
    }
  }

  lemma OneOfEach(entries: seq<Entry>)
    requires multiset(entries) == multiset(Listing(LAYOUT))
    ensures |entries| == |LAYOUT| && AreListed(entries) && AllDifferent(entries)
  {
    hide LAYOUT;
    ListingHas(LAYOUT);
    var listing := Listing(LAYOUT);
    assert |multiset(entries)| == |multiset(listing)|;
    forall i | 0 <= i < |entries|
      ensures entries[i].kind == RegularFile && exists c :: c in LAYOUT && c.text == entries[i].path {
      assert entries[i] in multiset(entries);
      var k :| 0 <= k < |listing| && listing[k] == entries[i];
      assert LAYOUT[k] in LAYOUT;
    }
    forall i, j | 0 <= i < j < |listing| ensures listing[i] != listing[j] {
      RolesOfLayout();
      if listing[i] == listing[j] {
        PathsDiffer(LAYOUT[i], LAYOUT[j]);
      }
    }
    DifferentAsMultisets(listing, entries);
  }

  lemma DifferentAsMultisets(a: seq<Entry>, b: seq<Entry>)
    requires multiset(a) == multiset(b) && AllDifferent(a)
    ensures AllDifferent(b)
  {
    forall i, j | 0 <= i < j < |b| ensures b[i] != b[j] {
      AtMostOnce(a, b[i]);
      CountsApart(b, i, j);
    }
  }

  lemma CountsApart(s: seq<Entry>, i: nat, j: nat)
    requires i < j < |s|
    ensures s[i] == s[j] ==> multiset(s)[s[i]] >= 2
  {
    var front, rest := s[..i + 1], s[i + 1..];
    assert s == front + rest;
    assert front[i] == s[i] && rest[j - i - 1] == s[j];
    assert s[i] in multiset(front) && s[j] in multiset(rest);
    assert multiset(s) == multiset(front) + multiset(rest);
  }

  lemma {:induction false} AtMostOnce(s: seq<Entry>, e: Entry)
    requires AllDifferent(s)
    ensures multiset(s)[e] <= 1
  {
    if s != [] {
      var front, last := s[..|s| - 1], s[|s| - 1];
      AtMostOnce(front, e);
      assert s == front + [last];
      assert forall i :: 0 <= i < |front| ==> front[i] != last;
    }
  }

  /**
   The allowlist accepts exactly the permutations of the six-entry layout with all entries regular
   files, and returns the same list, in role order, for each of them.
   */
  lemma AcceptedIffPermutation(entries: seq<Entry>)
    ensures ValidateEntries(entries).Success? <==> multiset(entries) == multiset(Listing(LAYOUT))
    ensures ValidateEntries(entries).Success? ==> ValidateEntries(entries).value == LAYOUT
  {
    hide LAYOUT, UnsafePath, HasSeparator, Identify, SortByRole;
    RolesOfLayout();
    if ValidateEntries(entries).Success? {
      IdentifiedAre(entries, []);
      var all := IdentifyAll(entries, []).value;
      assert all[0..] == all;
      SortedIsLayout(all);
      ListingPermutes(all, LAYOUT);
    }
    if multiset(entries) == multiset(Listing(LAYOUT)) {
      OneOfEach(entries);
      ListedAreIdentified(entries, []);
    }
  }

  // ---------------------------------------------------------------- why a listing is refused

  /** A regular file with a plain name: one component, none of the dotted ones, and no drive letter. */
  predicate Harmless(entry: Entry) {
    && entry.kind == RegularFile && WithoutSeparators(entry.path)
    && entry.path != "" && entry.path != "." && entry.path != ".."
    && !(|entry.path| > 1 && entry.path[0] < '\U{80}' && entry.path[1] == ':')
  }

  lemma HarmlessIff(entry: Entry)
    ensures Harmless(entry) <==> entry.kind == RegularFile && !UnsafePath(entry.path) && !HasSeparator(entry.path)
  {
    assert WithoutSeparators(entry.path) <==> !HasSeparator(entry.path);
    if !HasSeparator(entry.path) {
      OneComponent(entry.path);
      assert entry.path in Components(entry.path);
      assert forall c :: c in Components(entry.path) ==> c == entry.path;
      assert entry.path != "" ==> !Separator(entry.path[0]);
    }
  }

  predicate InLayout(path: string) {
    exists i :: 0 <= i < |LAYOUT| && LAYOUT[i].text == path
  }

  predicate AllPathsDiffer(entries: seq<Entry>) {
    forall i, j :: 0 <= i < j < |entries| ==> entries[i].path != entries[j].path
  }

  /** What is wrong with an entry after some that are in order. */
  predicate OffendsAs(before: seq<Entry>, entry: Entry, error: BundleError) {
    match error
    case Unsafe => !Harmless(entry)
    case Unexpected => Harmless(entry) && !InLayout(entry.path)
    case Duplicate =>
      Harmless(entry) && InLayout(entry.path) && exists i :: 0 <= i < |before| && before[i].path == entry.path
    case _ => false
  }

  predicate InOrder(entries: seq<Entry>) {
    AllPathsDiffer(entries) && forall i :: 0 <= i < |entries| ==> Harmless(entries[i]) && InLayout(entries[i].path)
  }

  /** What has been identified is what the entries are called. */
  predicate NamesOf(entries: seq<Entry>, identified: seq<Labelled>) {
    && |identified| == |entries| && WithinLayout(identified)
    && forall i :: 0 <= i < |entries| ==> identified[i].text == entries[i].path
  }

  lemma OffenderIsRefused(before: seq<Entry>, entry: Entry, identified: seq<Labelled>, error: BundleError)
    requires NamesOf(before, identified) && OffendsAs(before, entry, error)
    ensures Identify(entry, identified) == Failure(error)
  {
    hide LAYOUT, UnsafePath, HasSeparator, Harmless;
    HarmlessIff(entry);
    FindLabelledFinds(LAYOUT, entry.path);
    if error == Duplicate {
      var i :| 0 <= i < |before| && before[i].path == entry.path;
      var k :| 0 <= k < |LAYOUT| && LAYOUT[k].text == entry.path;
      assert LAYOUT[k] in LAYOUT && identified[i] in LAYOUT;
      PathsDiffer(identified[i], FindLabelled(LAYOUT, entry.path).value);
    }
  }

  lemma NextIsIdentified(before: seq<Entry>, entry: Entry, identified: seq<Labelled>)
    requires NamesOf(before, identified) && InOrder(before + [entry])
    ensures Identify(entry, identified).Success? && NamesOf(before + [entry], Identify(entry, identified).value)
  {
    hide LAYOUT, Harmless;
    var all := before + [entry];
    assert all[|before|] == entry && forall i :: 0 <= i < |before| ==> all[i] == before[i];
    IsRegular(entry);
    var k :| 0 <= k < |LAYOUT| && LAYOUT[k].text == entry.path;
    assert LAYOUT[k] in LAYOUT;
    ListedIsIdentified(entry, identified);
    var next := Identify(entry, identified).value;
    assert forall i :: 0 <= i < |before| ==> next[i] == identified[i];
  }

  lemma IsRegular(entry: Entry)
    ensures Harmless(entry) ==> entry.kind == RegularFile
  {
  }

  lemma {:induction false} FirstOffenderIsRefused(before: seq<Entry>, entries: seq<Entry>, identified: seq<Labelled>,
                                                  k: nat, error: BundleError)
    requires k < |entries| && NamesOf(before, identified) && InOrder(before + entries[..k])
    requires OffendsAs(before + entries[..k], entries[k], error)
    ensures IdentifyAll(entries, identified) == Failure(error)
    decreases k
  {
    hide LAYOUT, Harmless, Identify, InOrder, NamesOf, OffendsAs;
    if k == 0 {
      assert before + entries[..0] == before;
      OffenderIsRefused(before, entries[0], identified, error);
    } else {
      var first, rest := entries[0], entries[1..];
      assert (before + [first]) + rest[..k - 1] == before + entries[..k];
      FrontInOrder(before + [first], rest[..k - 1]);
      NextIsIdentified(before, first, identified);
      FirstOffenderIsRefused(before + [first], rest, Identify(first, identified).value, k - 1, error);
    }
  }

  lemma FrontInOrder(a: seq<Entry>, b: seq<Entry>)
    requires InOrder(a + b)
    ensures InOrder(a)
  {
    hide Harmless, InLayout;
    assert forall i :: 0 <= i < |a| ==> a[i] == (a + b)[i];
  }

  /** A listing of the right length is refused for its first entry that offends, with that entry's error. */
  lemma FirstOffenderDecides(entries: seq<Entry>, k: nat, error: BundleError)
    requires |entries| == |LAYOUT| && k < |entries|
    requires InOrder(entries[..k]) && OffendsAs(entries[..k], entries[k], error)
    ensures ValidateEntries(entries) == Failure(error)
  {
    hide LAYOUT, Harmless, Identify, InOrder, OffendsAs, SortByRole;
    assert [] + entries[..k] == entries[..k];
    FirstOffenderIsRefused([], entries, [], k, error);
  }

  lemma WrongCountIff(entries: seq<Entry>)
    ensures ValidateEntries(entries) == Failure(WrongCount) <==> |entries| != 6
  {
    hide Identify, SortByRole;
    RolesOfLayout();
    NeverWrongCount(entries, []);
  }

  lemma {:induction false} NeverWrongCount(entries: seq<Entry>, identified: seq<Labelled>)
    ensures IdentifyAll(entries, identified) != Failure(WrongCount)
  {
    hide LAYOUT, UnsafePath, HasSeparator;
    if entries != [] {
      var next := Identify(entries[0], identified);
      if next.Success? {
        NeverWrongCount(entries[1..], next.value);
      }
    }
  }
}
