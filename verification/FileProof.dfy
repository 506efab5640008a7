/**
 Byte-backed proofs: a digest taken between two snapshots of a file's identity, while anything may
 happen to the filesystem between any two calls. What makes the snapshots conclusive is that every
 change of an inode gives it a change time that it never had before.
 */
module FileProof {
  import opened Results
  import opened Sequences
  import opened Primitives

  datatype Inode = Inode(regular: bool, bytes: seq<Byte>, modified: nat, changed: nat, mode: nat, links: nat)

  /**
   The filesystem at one moment: inodes by number, which stands for device and number, entries by path, and
   the clock.
   */
  datatype Fs = Fs(inodes: map<nat, Inode>, names: map<string, nat>, clock: nat)

  /** The filesystem over time; every call looks at one moment of it. */
  type History = seq<Fs>

  // ---------------------------------------------------------------- how filesystems change

  /** Change times lie in the past. */
  predicate Dated(fs: Fs) {
    forall i :: i in fs.inodes ==> fs.inodes[i].changed <= fs.clock
  }

  /** Anything may be written, renamed, linked, removed or made; a changed or new inode gets a new change time. */
  predicate Changes(before: Fs, after: Fs) {
    && Dated(after) && before.clock <= after.clock
    && forall i :: i in after.inodes ==>
         (i in before.inodes && after.inodes[i] == before.inodes[i]) || after.inodes[i].changed > before.clock
  }

  predicate Evolves(h: History) {
    h != [] && Dated(h[0]) && forall t :: 0 <= t < |h| - 1 ==> Changes(h[t], h[t + 1])
  }

  predicate Has(h: History, t: nat, inode: nat) {
    t < |h| && inode in h[t].inodes
  }

  lemma {:induction false} ClockAdvances(h: History, s: nat, t: nat)
    requires Evolves(h) && s <= t < |h|
    ensures h[s].clock <= h[t].clock && Dated(h[t])
    decreases t - s
  {
    if s < t {
      ClockAdvances(h, s, t - 1);
      assert Changes(h[t - 1], h[t]);
    } else if s > 0 {
      assert Changes(h[s - 1], h[(s - 1) + 1]);
    }
  }

  /** An inode seen twice with one change time has been the same all along. */
  lemma {:induction false} SameChangeTime(h: History, s: nat, t: nat, inode: nat)
    requires Evolves(h) && s <= t && Has(h, s, inode) && Has(h, t, inode)
    requires h[s].inodes[inode].changed == h[t].inodes[inode].changed
    ensures forall u :: s <= u <= t ==> Has(h, u, inode) && h[u].inodes[inode] == h[s].inodes[inode]
    decreases t - s
  {
    if s < t {
      var last := t - 1;
      assert Changes(h[last], h[last + 1]);
      ClockAdvances(h, s, s);
      ClockAdvances(h, s, last);
      SameChangeTime(h, s, last, inode);
    }
  }

  // ---------------------------------------------------------------- identities

  datatype Identity = Identity(path: string, inode: nat, size: nat, modified: nat, changed: nat, mode: nat, links: nat)

  function IdentityOf(path: string, inode: nat, node: Inode): Identity {
    Identity(path, inode, |node.bytes|, node.modified, node.changed, node.mode, node.links)
  }

  /** The identity of an inode at a moment: of a regular file with a single link. */
  function Snapshot(h: History, t: nat, path: string, inode: nat): Option<Identity> {
    if !Has(h, t, inode) then None
    else
      var node := h[t].inodes[inode];
      if !node.regular || node.links != 1 then None else Some(IdentityOf(path, inode, node))
  }

  function PathSnapshot(h: History, t: nat, path: string): Option<Identity> {
    if t < |h| && path in h[t].names then Snapshot(h, t, path, h[t].names[path]) else None
  }

  /** Equal identities at two moments pin the inode down in between. */
  lemma SameIdentity(h: History, s: nat, t: nat, path: string, i: nat, j: nat)
    requires Evolves(h) && s <= t
    requires Snapshot(h, s, path, i).Some? && Snapshot(h, s, path, i) == Snapshot(h, t, path, j)
    ensures i == j && forall u :: s <= u <= t ==> Has(h, u, i) && h[u].inodes[i] == h[s].inodes[i]
  {
    SameChangeTime(h, s, t, i);
  }

  // ---------------------------------------------------------------- hashing in chunks

  /** One read: when it happens and how much it asks for. */
  datatype ReadCall = ReadCall(time: nat, size: nat)

  /** What a read at an offset delivers at that moment: at least a byte, unless at the end. */
  function ReadAt(h: History, call: ReadCall, inode: nat, offset: nat): Option<seq<Byte>> {
    if !Has(h, call.time, inode) || call.size == 0 then None
    else
      var bytes := h[call.time].inodes[inode].bytes;
      if offset >= |bytes| then Some([])
      else Some(bytes[offset..if offset + call.size < |bytes| then offset + call.size else |bytes|])
  }

  /** Everything read from an offset on up to the end of the file; nothing when a read fails or none is left. */
  function ReadAll(h: History, calls: seq<ReadCall>, inode: nat, offset: nat): Option<seq<Byte>> {
    if calls == [] then None
    else
      match ReadAt(h, calls[0], inode, offset)
      case None => None
      case Some(chunk) =>
        if chunk == [] then Some([])
        else
          match ReadAll(h, calls[1..], inode, offset + |chunk|)
          case None => None
          case Some(rest) => Some(chunk + rest)
  }

  function Prepended(fed: seq<Byte>, rest: Option<seq<Byte>>): Option<seq<Byte>> {
    match rest
    case None => None
    case Some(data) => Some(fed + data)
  }

  /** One turn of the chunk loop, in terms of what has been fed before. */
  lemma ReadStep(h: History, calls: seq<ReadCall>, inode: nat, fed: seq<Byte>)
    ensures calls == [] ==> ReadAll(h, calls, inode, |fed|) == None
    ensures calls != [] ==>
              var chunk := ReadAt(h, calls[0], inode, |fed|);
              && (chunk.None? ==> ReadAll(h, calls, inode, |fed|) == None)
              && (chunk == Some([]) ==> Prepended(fed, ReadAll(h, calls, inode, |fed|)) == Some(fed))
              && (chunk.Some? && chunk.value != [] ==>
                    Prepended(fed, ReadAll(h, calls, inode, |fed|))
                    == Prepended(fed + chunk.value, ReadAll(h, calls[1..], inode, |fed + chunk.value|)))
  {
    hide ReadAt;
    assert fed + [] == fed;
    if calls != [] {
      var chunk := ReadAt(h, calls[0], inode, |fed|);
      if chunk.Some? && chunk.value != [] {
        var rest := ReadAll(h, calls[1..], inode, |fed| + |chunk.value|);
        if rest.Some? {
          Associates(fed, chunk.value, rest.value);
        }
      }
    }
  }

  /** The chunk loop of hashing; the hasher has been fed the data read so far. */
  method HashOpenFile(h: History, calls: seq<ReadCall>, inode: nat, hash: seq<Byte> -> string)
    returns (digest: Option<string>)
    ensures digest == match ReadAll(h, calls, inode, 0) { case None => None case Some(data) => Some(hash(data)) }
  {
    hide ReadAll, ReadAt;
    var fed: seq<Byte> := [];
    var k := 0;
    ghost var all := ReadAll(h, calls, inode, 0);
    assert calls[0..] == calls && (all.Some? ==> fed + all.value == all.value);
    while k < |calls|
      invariant k <= |calls|
      invariant all == Prepended(fed, ReadAll(h, calls[k..], inode, |fed|))
    {
      ReadStep(h, calls[k..], inode, fed);
      var chunk := ReadAt(h, calls[k], inode, |fed|);
      assert calls[k..][1..] == calls[k + 1..];
      if chunk.None? {
        return None;
      }
      if chunk.value == [] {
        return Some(hash(fed));
      }
      fed := fed + chunk.value;
      k := k + 1;
    }
    ReadStep(h, calls[k..], inode, fed);
    digest := None;
  }

  predicate Within(calls: seq<ReadCall>, s: nat, t: nat) {
    forall i :: 0 <= i < |calls| ==> s <= calls[i].time <= t
  }

  predicate Steady(h: History, inode: nat, s: nat, t: nat, bytes: seq<Byte>) {
    forall u :: s <= u <= t ==> Has(h, u, inode) && h[u].inodes[inode].bytes == bytes
  }

  /** Of a file that stays as it is, the chunks put together are its contents. */
  lemma {:induction false} ChunksAreContents(h: History, calls: seq<ReadCall>, inode: nat, offset: nat, s: nat, t: nat,
                                             bytes: seq<Byte>)
    requires Within(calls, s, t) && Steady(h, inode, s, t, bytes) && offset <= |bytes|
    requires ReadAll(h, calls, inode, offset).Some?
    ensures ReadAll(h, calls, inode, offset) == Some(bytes[offset..])
  {
    var chunk := ReadAt(h, calls[0], inode, offset).value;
    assert h[calls[0].time].inodes[inode].bytes == bytes;
    if chunk == [] {
      assert bytes[offset..] == [];
    } else {
      var end := offset + |chunk|;
      assert chunk == bytes[offset..end];
      hide ReadAt;
      ChunksAreContents(h, calls[1..], inode, end, s, t, bytes);
      assert bytes[offset..end] + bytes[end..] == bytes[offset..];
    }
  }

  // ---------------------------------------------------------------- verification of one file

  /**
   One verification: the moments of its calls, and whichever inode its open call ended up with, which
   need not be the one the path named before.
   */
  datatype Run = Run(
    path: string, before: nat, descriptor: nat, checked: nat, calls: seq<ReadCall>, after: nat, rechecked: nat)

  predicate InOrder(h: History, r: Run) {
    r.before <= r.checked <= r.after <= r.rechecked < |h| && Within(r.calls, r.checked, r.after)
  }

  /** The final identity, if both snapshots, the descriptor and the digest agree. */
  function VerifyFileBytes(h: History, r: Run, expected: string, hash: seq<Byte> -> string): Option<Identity> {
    var before := PathSnapshot(h, r.before, r.path);
    if before.None? || Snapshot(h, r.checked, r.path, r.descriptor) != before then None
    else
      var data := ReadAll(h, r.calls, r.descriptor, 0);
      var after := PathSnapshot(h, r.after, r.path);
      if || data.None? || after.None? || before != after || Snapshot(h, r.rechecked, r.path, r.descriptor) != after
         || hash(data.value) != expected then None
      else after
  }

  /** The contents of an inode at a moment. */
  function Contents(h: History, t: nat, inode: nat): seq<Byte>
    requires Has(h, t, inode)
  {
    h[t].inodes[inode].bytes
  }

  /**
   The identity sandwich: whatever happened during the reads, a successful verification means that
   the path named one and the same unchanged inode throughout, and that the digest is that of its
   contents, in particular of those at the final snapshot.
   */
  lemma VerifiedContents(h: History, r: Run, expected: string, hash: seq<Byte> -> string)
    requires Evolves(h) && InOrder(h, r) && VerifyFileBytes(h, r, expected, hash).Some?
    ensures r.path in h[r.after].names && h[r.after].names[r.path] == r.descriptor
    ensures forall u :: r.before <= u <= r.rechecked ==>
              Has(h, u, r.descriptor) && hash(Contents(h, u, r.descriptor)) == expected
    ensures VerifyFileBytes(h, r, expected, hash) == PathSnapshot(h, r.after, r.path)
  {
    var first := h[r.before].names[r.path];
    SameIdentity(h, r.before, r.checked, r.path, first, r.descriptor);
    SameIdentity(h, r.before, r.after, r.path, first, h[r.after].names[r.path]);
    SameIdentity(h, r.before, r.rechecked, r.path, first, r.descriptor);
    var bytes := Contents(h, r.before, r.descriptor);
    ChunksAreContents(h, r.calls, r.descriptor, 0, r.checked, r.after, bytes);
    assert bytes[0..] == bytes;
  }

  /** Nothing is refused needlessly: of a file left alone, verification checks just the digest. */
  lemma LeftAloneVerifiesIff(h: History, r: Run, expected: string, hash: seq<Byte> -> string)
    requires InOrder(h, r) && PathSnapshot(h, r.before, r.path).Some?
    requires forall u :: r.before <= u <= r.rechecked ==> h[u] == h[r.before]
    requires r.descriptor == h[r.before].names[r.path] && ReadAll(h, r.calls, r.descriptor, 0).Some?
    ensures VerifyFileBytes(h, r, expected, hash).Some? <==> hash(Contents(h, r.before, r.descriptor)) == expected
  {
    var bytes := Contents(h, r.before, r.descriptor);
    ChunksAreContents(h, r.calls, r.descriptor, 0, r.checked, r.after, bytes);
    assert bytes[0..] == bytes;
  }

  /** With enough reads that ask for something, a file that stays as it is is read to its end. */
  lemma {:induction false} ReadsToEnd(h: History, calls: seq<ReadCall>, inode: nat, offset: nat, s: nat, t: nat,
                                      bytes: seq<Byte>)
    requires Within(calls, s, t) && Steady(h, inode, s, t, bytes) && offset <= |bytes| < |calls| + offset
    requires forall i :: 0 <= i < |calls| ==> calls[i].size > 0
    ensures ReadAll(h, calls, inode, offset) == Some(bytes[offset..])
  {
    assert Has(h, calls[0].time, inode) && h[calls[0].time].inodes[inode].bytes == bytes;
    var chunk := ReadAt(h, calls[0], inode, offset);
    if offset < |bytes| {
      var end := offset + |chunk.value|;
      assert chunk.value == bytes[offset..end];
      hide ReadAt;
      ReadsToEnd(h, calls[1..], inode, end, s, t, bytes);
      assert bytes[offset..end] + bytes[end..] == bytes[offset..];
    } else {
      assert chunk == Some([]) && bytes[offset..] == [];
    }
  }

  /** The path names this regular file with a single link, and the file stays as it is from one moment to another. */
  predicate Undisturbed(h: History, r: Run) {
    && Has(h, r.before, r.descriptor)
    && h[r.before].inodes[r.descriptor].regular && h[r.before].inodes[r.descriptor].links == 1
    && r.path in h[r.before].names && h[r.before].names[r.path] == r.descriptor
    && r.after < |h| && r.path in h[r.after].names && h[r.after].names[r.path] == r.descriptor
    && forall u :: r.before <= u <= r.rechecked ==>
         Has(h, u, r.descriptor) && h[u].inodes[r.descriptor] == h[r.before].inodes[r.descriptor]
  }

  /**
   What verification means, whatever happens to the filesystem: it succeeds exactly if the descriptor is of
   the file that the path names before and after, that file stays as it is throughout, reading it comes to
   its end, and its contents have the expected digest; what it returns is that file's identity.
   */
  lemma VerifiedIff(h: History, r: Run, expected: string, hash: seq<Byte> -> string)
    requires Evolves(h) && InOrder(h, r)
    ensures VerifyFileBytes(h, r, expected, hash).Some?
       <==> (&& Undisturbed(h, r) && ReadAll(h, r.calls, r.descriptor, 0).Some?
             && hash(Contents(h, r.before, r.descriptor)) == expected)
    ensures VerifyFileBytes(h, r, expected, hash).Some? ==>
              var node := h[r.before].inodes[r.descriptor];
              VerifyFileBytes(h, r, expected, hash)
              == Some(Identity(r.path, r.descriptor, |node.bytes|, node.modified, node.changed, node.mode, 1))
  {
    hide ReadAll;
    if VerifyFileBytes(h, r, expected, hash).Some? {
      var first := h[r.before].names[r.path];
      SameIdentity(h, r.before, r.checked, r.path, first, r.descriptor);
      SameIdentity(h, r.before, r.rechecked, r.path, first, r.descriptor);
      SameIdentity(h, r.before, r.after, r.path, first, h[r.after].names[r.path]);
      VerifiedContents(h, r, expected, hash);
    }
    if Undisturbed(h, r) && ReadAll(h, r.calls, r.descriptor, 0).Some? {
      var bytes := Contents(h, r.before, r.descriptor);
      ChunksAreContents(h, r.calls, r.descriptor, 0, r.checked, r.after, bytes);
      assert bytes[0..] == bytes;
    }
  }

  // ---------------------------------------------------------------- proofs for later use

  /** Capturing the identities of all inputs, one after the other. */
  function Capture(h: History, paths: seq<string>, times: seq<nat>): Option<seq<Identity>>
    requires |times| == |paths|
  {
    if paths == [] then Some([])
    else
      match PathSnapshot(h, times[0], paths[0])
      case None => None
      case Some(first) =>
        match Capture(h, paths[1..], times[1..])
        case None => None
        case Some(rest) => Some([first] + rest)
  }

  lemma {:induction false} CapturedAre(h: History, paths: seq<string>, times: seq<nat>)
    requires |times| == |paths| && Capture(h, paths, times).Some?
    ensures |Capture(h, paths, times).value| == |paths|
    ensures forall i :: 0 <= i < |paths| ==>
              Some(Capture(h, paths, times).value[i]) == PathSnapshot(h, times[i], paths[i])
  {
    if paths != [] {
      CapturedAre(h, paths[1..], times[1..]);
    }
  }

  /** A file to verify among the captured inputs. */
  datatype Check = Check(input: nat, run: Run, expected: string)

  /** Captures all inputs, verifies the bytes of some, captures all again; the proof is the last capture. */
  function Prove(h: History, paths: seq<string>, before: seq<nat>, checks: seq<Check>, after: seq<nat>,
                 hash: seq<Byte> -> string): Option<seq<Identity>>
    requires |before| == |paths| == |after|
  {
    var first, last := Capture(h, paths, before), Capture(h, paths, after);
    if || first.None?
       || (exists i :: 0 <= i < |checks| && VerifyFileBytes(h, checks[i].run, checks[i].expected, hash).None?)
       || first != last then None
    else last
  }

  /** Every path has this identity at its moment. */
  predicate Identified(h: History, paths: seq<string>, times: seq<nat>, proof: seq<Identity>)
    requires |times| == |paths|
  {
    |proof| == |paths| && forall i :: 0 <= i < |paths| ==> PathSnapshot(h, times[i], paths[i]) == Some(proof[i])
  }

  lemma {:induction false} CapturedIff(h: History, paths: seq<string>, times: seq<nat>, proof: seq<Identity>)
    requires |times| == |paths|
    ensures Capture(h, paths, times) == Some(proof) <==> Identified(h, paths, times, proof)
  {
    hide PathSnapshot;
    if paths != [] {
      if proof != [] {
        CapturedIff(h, paths[1..], times[1..], proof[1..]);
        assert forall i :: 0 < i < |paths| ==> paths[i] == paths[1..][i - 1] && times[i] == times[1..][i - 1];
        assert forall i :: 0 < i < |proof| ==> proof[i] == proof[1..][i - 1];
        assert proof == [proof[0]] + proof[1..];
      }
    }
  }

  /** A proof is made exactly of identities that all inputs have before and after, if every check verifies. */
  lemma ProvenIff(h: History, paths: seq<string>, before: seq<nat>, checks: seq<Check>, after: seq<nat>,
                  hash: seq<Byte> -> string, proof: seq<Identity>)
    requires |before| == |paths| == |after|
    ensures Prove(h, paths, before, checks, after, hash) == Some(proof)
       <==> (&& Identified(h, paths, before, proof) && Identified(h, paths, after, proof)
             && forall i :: 0 <= i < |checks| ==>
                  VerifyFileBytes(h, checks[i].run, checks[i].expected, hash).Some?)
  {
    CapturedIff(h, paths, before, proof);
    CapturedIff(h, paths, after, proof);
    hide Capture, Identified, VerifyFileBytes;
  }

  predicate Planned(h: History, paths: seq<string>, before: seq<nat>, checks: seq<Check>, after: seq<nat>)
    requires |before| == |paths| == |after|
  {
    forall c :: 0 <= c < |checks| ==>
      && checks[c].input < |paths| && checks[c].run.path == paths[checks[c].input] && InOrder(h, checks[c].run)
      && before[checks[c].input] <= checks[c].run.after <= after[checks[c].input] < |h|
  }

  lemma CheckedIdentity(h: History, paths: seq<string>, before: seq<nat>, checks: seq<Check>, after: seq<nat>,
                        hash: seq<Byte> -> string, c: nat)
    requires Evolves(h) && |before| == |paths| == |after| && Planned(h, paths, before, checks, after) && c < |checks|
    requires Prove(h, paths, before, checks, after, hash).Some?
    ensures var input, proof := checks[c].input, Prove(h, paths, before, checks, after, hash).value;
            && |proof| == |paths|
            && Some(proof[input]) == PathSnapshot(h, before[input], paths[input])
            && Some(proof[input]) == PathSnapshot(h, after[input], paths[input])
            && VerifyFileBytes(h, checks[c].run, checks[c].expected, hash).Some?
  {
    CapturedAre(h, paths, before);
    CapturedAre(h, paths, after);
  }

  /** The digest verified is that of the contents, at the time of the proof, of the inode the proof records. */
  predicate Sound(h: History, paths: seq<string>, after: seq<nat>, check: Check, proof: seq<Identity>,
                  hash: seq<Byte> -> string)
    requires |after| == |paths| == |proof| && check.input < |paths|
  {
    && Has(h, after[check.input], proof[check.input].inode)
    && hash(Contents(h, after[check.input], proof[check.input].inode)) == check.expected
  }

  /**
   The missing guard: the file verified is the file proven exactly when the identity that verification
   returns equals the one captured, a comparison that is not made.
   */
  lemma VerifiedIsProvenIff(h: History, paths: seq<string>, before: seq<nat>, checks: seq<Check>, after: seq<nat>,
                            hash: seq<Byte> -> string, c: nat)
    requires Evolves(h) && |before| == |paths| == |after| && Planned(h, paths, before, checks, after) && c < |checks|
    requires Prove(h, paths, before, checks, after, hash).Some?
    ensures var run, input := checks[c].run, checks[c].input;
            var proof := Prove(h, paths, before, checks, after, hash).value;
            && |proof| == |paths| && run.path in h[run.after].names
            && (h[run.after].names[run.path] == proof[input].inode
                <==> VerifyFileBytes(h, run, checks[c].expected, hash) == Some(proof[input]))
  {
    var run, input := checks[c].run, checks[c].input;
    CheckedIdentity(h, paths, before, checks, after, hash, c);
    VerifiedContents(h, run, checks[c].expected, hash);
    var proof := Prove(h, paths, before, checks, after, hash).value;
    if h[run.after].names[run.path] == proof[input].inode {
      SameIdentity(h, before[input], after[input], paths[input], proof[input].inode, proof[input].inode);
    }
  }

  ghost predicate CollisionFree(hash: seq<Byte> -> string) {
    forall a, b :: hash(a) == hash(b) ==> a == b
  }

  /**
   With a digest function without collisions, a proof is sound for an input exactly if the file that
   its path named when its verification ended has the bytes of the file that is proven.
   */
  lemma SoundIffSameBytes(h: History, paths: seq<string>, before: seq<nat>, checks: seq<Check>, after: seq<nat>,
                          hash: seq<Byte> -> string, c: nat)
    requires Evolves(h) && CollisionFree(hash)
    requires |before| == |paths| == |after| && Planned(h, paths, before, checks, after) && c < |checks|
    requires Prove(h, paths, before, checks, after, hash).Some?
    ensures var run, input := checks[c].run, checks[c].input;
            var proof := Prove(h, paths, before, checks, after, hash).value;
            && |proof| == |paths| && Has(h, after[input], proof[input].inode)
            && run.path in h[run.after].names && Has(h, run.after, h[run.after].names[run.path])
            && (Sound(h, paths, after, checks[c], proof, hash)
                <==> Contents(h, run.after, h[run.after].names[run.path])
                     == Contents(h, after[input], proof[input].inode))
  {
    var run, input := checks[c].run, checks[c].input;
    CheckedIdentity(h, paths, before, checks, after, hash, c);
    VerifiedContents(h, run, checks[c].expected, hash);
    assert Has(h, run.after, run.descriptor) && hash(Contents(h, run.after, run.descriptor)) == checks[c].expected;
  }

  /**
   The digest is that of the proven inode's contents when the proof is made, provided that the inode
   verified is the one captured: the identity that verification returns is not compared with the proof.
   */
  lemma ProvenIfSameInode(h: History, paths: seq<string>, before: seq<nat>, checks: seq<Check>, after: seq<nat>,
                          hash: seq<Byte> -> string, c: nat)
    requires Evolves(h) && |before| == |paths| == |after| && Planned(h, paths, before, checks, after) && c < |checks|
    requires Prove(h, paths, before, checks, after, hash).Some?
    requires var proof := Prove(h, paths, before, checks, after, hash).value;
             |proof| == |paths| && proof[checks[c].input].inode == checks[c].run.descriptor
    ensures var input := checks[c].input;
            Has(h, after[input], checks[c].run.descriptor)
            && hash(Contents(h, after[input], checks[c].run.descriptor)) == checks[c].expected
  {
    var run, input := checks[c].run, checks[c].input;
    CheckedIdentity(h, paths, before, checks, after, hash, c);
    VerifiedContents(h, run, checks[c].expected, hash);
    SameIdentity(h, before[input], after[input], paths[input], run.descriptor, run.descriptor);
  }

  /** A directory entry that comes to name an inode gives that inode a new change time, as renaming and linking do. */
  predicate RenamesDate(before: Fs, after: Fs) {
    forall path :: path in after.names && !(path in before.names && before.names[path] == after.names[path]) ==>
      after.names[path] in after.inodes && after.inodes[after.names[path]].changed > before.clock
  }

  predicate RenamesDated(h: History) {
    forall t :: 0 <= t < |h| - 1 ==> RenamesDate(h[t], h[t + 1])
  }

  /** An entry has named an inode at least since that inode last changed. */
  lemma {:induction false} NamedSinceChange(h: History, m: nat, t: nat, path: string, inode: nat)
    requires Evolves(h) && RenamesDated(h) && m <= t < |h|
    requires path in h[t].names && h[t].names[path] == inode && Has(h, t, inode)
    requires h[t].inodes[inode].changed <= h[m].clock
    ensures forall u :: m <= u <= t ==> path in h[u].names && h[u].names[path] == inode
    decreases t - m
  {
    if m < t {
      var last := t - 1;
      assert Changes(h[last], h[last + 1]) && RenamesDate(h[last], h[last + 1]);
      ClockAdvances(h, m, last);
      NamedSinceChange(h, m, last, path, inode);
    }
  }

  /**
   Where renaming dates the inode, the proof is sound: the digest of every verified input is that of
   the contents of the inode whose identity the proof records, at the moment it records it.
   */
  lemma ProvenContents(h: History, paths: seq<string>, before: seq<nat>, checks: seq<Check>, after: seq<nat>,
                       hash: seq<Byte> -> string, c: nat)
    requires Evolves(h) && RenamesDated(h)
    requires |before| == |paths| == |after| && Planned(h, paths, before, checks, after) && c < |checks|
    requires Prove(h, paths, before, checks, after, hash).Some?
    ensures var proof := Prove(h, paths, before, checks, after, hash).value;
            |proof| == |paths| && Sound(h, paths, after, checks[c], proof, hash)
  {
    var run, input := checks[c].run, checks[c].input;
    CheckedIdentity(h, paths, before, checks, after, hash, c);
    VerifiedContents(h, run, checks[c].expected, hash);
    ClockAdvances(h, 0, before[input]);
    NamedSinceChange(h, before[input], after[input], paths[input], h[after[input]].names[paths[input]]);
    assert h[run.after].names[paths[input]] == h[after[input]].names[paths[input]];
    ProvenIfSameInode(h, paths, before, checks, after, hash, c);
  }

  /**
   Opening a proven input: the identities are captured again, the metadata is read again and compared,
   then whatever was opened is compared.
   */
  function OpenSource(h: History, proof: seq<Identity>, paths: seq<string>, times: seq<nat>, metadata: string,
                      current: Option<string>, input: nat, descriptor: nat, checked: nat): Option<nat>
    requires |times| == |paths| == |proof| && input < |paths|
  {
    if || Capture(h, paths, times) != Some(proof) || current != Some(metadata)
       || Snapshot(h, checked, paths[input], descriptor) != Some(proof[input]) then None
    else Some(descriptor)
  }

  /** A descriptor is handed out exactly if all inputs, the metadata and what was opened are as proven. */
  lemma OpenedIff(h: History, proof: seq<Identity>, paths: seq<string>, times: seq<nat>, metadata: string,
                  current: Option<string>, input: nat, descriptor: nat, checked: nat)
    requires |times| == |paths| == |proof| && input < |paths|
    ensures OpenSource(h, proof, paths, times, metadata, current, input, descriptor, checked)
         == if && Identified(h, paths, times, proof) && current == Some(metadata) && Has(h, checked, descriptor)
               && h[checked].inodes[descriptor].regular && h[checked].inodes[descriptor].links == 1
               && var node := h[checked].inodes[descriptor];
                  proof[input]
                  == Identity(paths[input], descriptor, |node.bytes|, node.modified, node.changed, node.mode, 1)
            then Some(descriptor) else None
  {
    CapturedIff(h, paths, times, proof);
    hide Capture, Identified;
  }

  /**
   Whatever happened since, a descriptor that is handed out reads the very bytes that the proven file had
   when it was proven. They have the verified digest exactly if the proof is sound, as it always is
   where renaming dates the inode.
   */
  lemma OpenedIsProven(h: History, paths: seq<string>, before: seq<nat>, checks: seq<Check>, after: seq<nat>,
                       hash: seq<Byte> -> string, c: nat, times: seq<nat>, metadata: string, current: Option<string>,
                       descriptor: nat, checked: nat)
    requires Evolves(h)
    requires |before| == |paths| == |after| == |times| && Planned(h, paths, before, checks, after) && c < |checks|
    requires Prove(h, paths, before, checks, after, hash).Some?
    requires |Prove(h, paths, before, checks, after, hash).value| == |paths|
    requires after[checks[c].input] <= checked < |h|
    requires OpenSource(h, Prove(h, paths, before, checks, after, hash).value, paths, times, metadata, current,
                        checks[c].input, descriptor, checked) == Some(descriptor)
    ensures Has(h, checked, descriptor) && Has(h, after[checks[c].input], descriptor)
    ensures Contents(h, checked, descriptor) == Contents(h, after[checks[c].input], descriptor)
    ensures hash(Contents(h, checked, descriptor)) == checks[c].expected
       <==> Sound(h, paths, after, checks[c], Prove(h, paths, before, checks, after, hash).value, hash)
    ensures RenamesDated(h) ==> hash(Contents(h, checked, descriptor)) == checks[c].expected
  {
    var input := checks[c].input;
    var proof := Prove(h, paths, before, checks, after, hash).value;
    CheckedIdentity(h, paths, before, checks, after, hash, c);
    if RenamesDated(h) {
      ProvenContents(h, paths, before, checks, after, hash, c);
    }
    SameIdentity(h, after[input], checked, paths[input], proof[input].inode, descriptor);
  }

  // ---------------------------------------------------------------- where it fails

  function Plain(byte: Byte): Inode {
    Inode(true, [byte], 0, 0, 0, 1)
  }

  /** Two files, and a path that names the first, the second, and the first again, as if directories were swapped. */
  function SwappedHistory(): History {
    var inodes := map[1 := Plain(1), 2 := Plain(2)];
    [Fs(inodes, map["disk" := 1], 0), Fs(inodes, map["disk" := 2], 0), Fs(inodes, map["disk" := 1], 0)]
  }

  /** A digest function that tells the two contents apart. */
  function FirstByte(bytes: seq<Byte>): string {
    if bytes == [2] then "two" else "one"
  }

  /**
   Without dated renames a proof can be made whose digest belongs to another inode: the path is led to
   a different file for the verification only, and both captures see the first one.
   */
  lemma SwapIsNotNoticed()
    ensures var h, run := SwappedHistory(), Run("disk", 1, 2, 1, [ReadCall(1, 8), ReadCall(1, 8)], 1, 1);
            var proof := Prove(h, ["disk"], [0], [Check(0, run, "two")], [2], FirstByte);
            && Evolves(h) && Planned(h, ["disk"], [0], [Check(0, run, "two")], [2])
            && proof == Some([IdentityOf("disk", 1, Plain(1))])
            && FirstByte(Contents(h, 2, 1)) != "two"
  {
    var h, run := SwappedHistory(), Run("disk", 1, 2, 1, [ReadCall(1, 8), ReadCall(1, 8)], 1, 1);
    assert [2 as Byte][0..1] == [2 as Byte];
    assert ReadAt(h, ReadCall(1, 8), 2, 0) == Some([2 as Byte]);
    assert run.calls[1..] == [ReadCall(1, 8)];
    assert ReadAll(h, run.calls[1..], 2, 1) == Some([]);
    assert ReadAll(h, run.calls, 2, 0) == Some([2 as Byte] + []);
    assert [2 as Byte] + [] == [2 as Byte];
    assert VerifyFileBytes(h, run, "two", FirstByte).Some?;
    CaptureOne(h, "disk", 0);
    CaptureOne(h, "disk", 2);
  }

  lemma CaptureOne(h: History, path: string, time: nat)
    requires PathSnapshot(h, time, path).Some?
    ensures Capture(h, [path], [time]) == Some([PathSnapshot(h, time, path).value])
  {
    var none: seq<string>, never: seq<nat> := [], [];
    assert [path][1..] == none && [time][1..] == never;
    assert Capture(h, none, never) == Some([]);
    assert [PathSnapshot(h, time, path).value] + [] == [PathSnapshot(h, time, path).value];
  }
}
