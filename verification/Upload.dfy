/** The base upload: a file read in chunks of any size, each sent in pieces of any size. */
module Upload {
  import opened Results
  import opened Sequences
  import opened Primitives
  import opened WriteFaults

  type Word64 = n: nat | n < BOUND

  const BOUND: nat := 0x1_0000_0000_0000_0000
  const BUFFER: nat := 1024 * 1024

  /** What one read delivers; nothing at the end of the file. */
  datatype Read = ReadFails | Delivers(bytes: seq<Byte>)

  /** How many of the offered bytes one send takes; nothing when the stream has stopped accepting. */
  datatype Send = SendFails | Takes(count: nat)

  datatype UploadError = Broken | StoppedAccepting | Overflowed | SizeChanged

  // ---------------------------------------------------------------- one chunk

  function Taken(send: Send, offered: nat): Option<nat> {
    match send
    case SendFails => None
    case Takes(count) => Some(if count < offered then count else offered)
  }

  /** The bytes that sending a chunk gets across, and the number of sends it took, or why it stopped. */
  datatype Sent = Sent(bytes: seq<Byte>, next: nat, error: Option<UploadError>)

  function SendChunk(chunk: seq<Byte>, sends: nat -> Send, k: nat): Sent
    decreases |chunk|
  {
    if chunk == [] then Sent([], k, None)
    else
      match Taken(sends(k), |chunk|)
      case None => Sent([], k + 1, Some(Broken))
      case Some(count) =>
        if count == 0 then Sent([], k + 1, Some(StoppedAccepting))
        else
          var rest := SendChunk(chunk[count..], sends, k + 1);
          Sent(chunk[..count] + rest.bytes, rest.next, rest.error)
  }

  /** A chunk arrives whole if all sends take something, and otherwise a proper part of its front does. */
  lemma {:induction false} ChunkArrives(chunk: seq<Byte>, sends: nat -> Send, k: nat)
    ensures var sent := SendChunk(chunk, sends, k);
            && |sent.bytes| <= |chunk| && sent.bytes == chunk[..|sent.bytes|]
            && (sent.error.None? <==> sent.bytes == chunk)
    decreases |chunk|
  {
    if chunk != [] {
      var count := Taken(sends(k), |chunk|);
      if count.Some? && count.value > 0 {
        ChunkArrives(chunk[count.value..], sends, k + 1);
        var rest := SendChunk(chunk[count.value..], sends, k + 1).bytes;
        assert chunk == chunk[..count.value] + chunk[count.value..];
        assert chunk[..count.value] + rest == chunk[..count.value + |rest|];
        if |rest| < |chunk[count.value..]| {
          assert |chunk[..count.value] + rest| < |chunk|;
        }
      }
    }
  }

  // ---------------------------------------------------------------- the whole file

  /** One read never delivers more than the buffer holds. */
  function ReadChunk(read: Read): Option<seq<Byte>> {
    match read
    case ReadFails => None
    case Delivers(bytes) => Some(if |bytes| <= BUFFER then bytes else bytes[..BUFFER])
  }

  function Transfer(input: nat -> Read, sends: nat -> Send, r: nat, k: nat, total: Word64, length: Word64)
    : (seq<Byte>, Result<(), UploadError>)
    decreases BOUND - total
  {
    match ReadChunk(input(r))
    case None => ([], Failure(Broken))
    case Some(chunk) =>
      if chunk == [] then ([], if total == length then Success(()) else Failure(SizeChanged))
      else
        var sent := SendChunk(chunk, sends, k);
        if sent.error.Some? then (sent.bytes, Failure(sent.error.value))
        else if total + |chunk| >= BOUND then (sent.bytes, Failure(Overflowed))
        else
          var rest := Transfer(input, sends, r + 1, sent.next, total + |chunk|, length);
          (sent.bytes + rest.0, rest.1)
  }

  /** The bytes the first reads deliver. */
  function Delivered(input: nat -> Read, r: nat, n: nat): seq<Byte>
    decreases n
  {
    if n == 0 then []
    else (match ReadChunk(input(r)) case None => [] case Some(chunk) => chunk) + Delivered(input, r + 1, n - 1)
  }

  /** The reads from a given one on deliver something this often, and then the end of the file. */
  ghost predicate EndsAfter(input: nat -> Read, r: nat, n: nat) {
    && ReadChunk(input(r + n)) == Some([])
    && forall i :: r <= i < r + n ==> ReadChunk(input(i)).Some? && ReadChunk(input(i)).value != []
  }

  /**
   Fidelity: for every pattern of short reads and short sends, on success the stream has received
   exactly what was read up to the end of the file, and that is of the declared length.
   */
  lemma {:induction false} SuccessIsFaithful(input: nat -> Read, sends: nat -> Send, r: nat, k: nat, total: Word64,
                                             length: Word64)
    requires Transfer(input, sends, r, k, total, length).1.Success?
    ensures exists n: nat ::
              && EndsAfter(input, r, n)
              && Transfer(input, sends, r, k, total, length).0 == Delivered(input, r, n)
              && total + |Delivered(input, r, n)| == length
    decreases BOUND - total
  {
    var chunk := ReadChunk(input(r)).value;
    if chunk == [] {
      assert EndsAfter(input, r, 0);
      assert Delivered(input, r, 0) == [];
    } else {
      ChunkArrives(chunk, sends, k);
      var sent := SendChunk(chunk, sends, k);
      SuccessIsFaithful(input, sends, r + 1, sent.next, total + |chunk|, length);
      var n: nat :|
        && EndsAfter(input, r + 1, n)
        && Transfer(input, sends, r + 1, sent.next, total + |chunk|, length).0 == Delivered(input, r + 1, n)
        && total + |chunk| + |Delivered(input, r + 1, n)| == length;
      assert EndsAfter(input, r, n + 1);
      assert Delivered(input, r, n + 1) == chunk + Delivered(input, r + 1, n);
    }
  }

  /** The stream takes the chunks of this many reads whole. */
  predicate TakesAll(input: nat -> Read, sends: nat -> Send, r: nat, k: nat, n: nat)
    decreases n
  {
    n == 0
    || (&& ReadChunk(input(r)).Some?
        && SendChunk(ReadChunk(input(r)).value, sends, k).error.None?
        && TakesAll(input, sends, r + 1, SendChunk(ReadChunk(input(r)).value, sends, k).next, n - 1))
  }

  /** Exactly when a file that is read to its end arrives: all chunks are taken, and the length is the declared one. */
  lemma {:induction false} TransferSucceedsIff(input: nat -> Read, sends: nat -> Send, r: nat, k: nat, total: Word64,
                                               length: Word64, n: nat)
    requires EndsAfter(input, r, n)
    ensures Transfer(input, sends, r, k, total, length).1.Success?
       <==> TakesAll(input, sends, r, k, n) && total + |Delivered(input, r, n)| == length
    ensures Transfer(input, sends, r, k, total, length).1.Success? ==>
              Transfer(input, sends, r, k, total, length).0 == Delivered(input, r, n)
    decreases n
  {
    var chunk := ReadChunk(input(r));
    if n == 0 {
      assert chunk == Some([]);
    } else {
      assert chunk.Some? && chunk.value != [];
      ChunkArrives(chunk.value, sends, k);
      if total + |chunk.value| < BOUND {
        var next := SendChunk(chunk.value, sends, k).next;
        TransferSucceedsIff(input, sends, r + 1, next, total + |chunk.value|, length, n - 1);
      }
    }
  }

  /** No failing send, and none that takes nothing. */
  ghost predicate Flowing(sends: nat -> Send) {
    forall k: nat :: sends(k) != SendFails && sends(k) != Takes(0)
  }

  lemma {:induction false} FlowingChunk(chunk: seq<Byte>, sends: nat -> Send, k: nat)
    requires Flowing(sends)
    ensures SendChunk(chunk, sends, k).error.None?
    decreases |chunk|
  {
    if chunk != [] {
      FlowingChunk(chunk[Taken(sends(k), |chunk|).value..], sends, k + 1);
    }
  }

  /** However short they are, sends that take something take every chunk. */
  lemma {:induction false} FlowingTakesAll(input: nat -> Read, sends: nat -> Send, r: nat, k: nat, n: nat)
    requires Flowing(sends) && EndsAfter(input, r, n)
    ensures TakesAll(input, sends, r, k, n)
    decreases n
  {
    if n > 0 {
      hide Flowing;
      assert ReadChunk(input(r)).Some?;
      FlowingChunk(ReadChunk(input(r)).value, sends, k);
      FlowingTakesAll(input, sends, r + 1, SendChunk(ReadChunk(input(r)).value, sends, k).next, n - 1);
    }
  }

  // ---------------------------------------------------------------- the whole upload

  /** How opening the file, starting the stream, and closing it as complete or aborting it turn out. */
  datatype Session = Session(opens: bool, starts: bool, finish: Fault, abort: Fault)

  datatype Uploaded = Uploaded(bytes: seq<Byte>, finished: bool, aborted: bool, result: Result<(), UploadError>)

  /** Of a wrong size the stream is aborted, after any other failure it is left open, and else it is finished. */
  function Close(session: Session, sent: (seq<Byte>, Result<(), UploadError>)): Uploaded {
    match sent.1
    case Success(_) =>
      Uploaded(sent.0, session.finish != FailsBefore, false,
               if session.finish == Works then Success(()) else Failure(Broken))
    case Failure(SizeChanged) =>
      Uploaded(sent.0, false, session.abort != FailsBefore,
               if session.abort == Works then Failure(SizeChanged) else Failure(Broken))
    case Failure(error) => Uploaded(sent.0, false, false, Failure(error))
  }

  function UploadVolume(session: Session, input: nat -> Read, sends: nat -> Send, length: Word64): Uploaded {
    if !session.opens || !session.starts then Uploaded([], false, false, Failure(Broken))
    else Close(session, Transfer(input, sends, 0, 0, 0, length))
  }

  /** Reading a file: consecutive stretches of its contents until there is no more. */
  ghost predicate ReadsFile(input: nat -> Read, contents: seq<Byte>, r: nat, n: nat) {
    EndsAfter(input, r, n) && Delivered(input, r, n) == contents
  }

  /**
   Exactly when a file that is read to its end is uploaded: everything opens, starts and finishes, the
   stream takes all chunks, and the size is the declared one. Whatever is reported, a stream is only ever
   closed as complete with exactly the file's contents in it.
   */
  lemma UploadCopiesFile(session: Session, input: nat -> Read, sends: nat -> Send, contents: seq<Byte>, length: Word64,
                         n: nat)
    requires ReadsFile(input, contents, 0, n)
    ensures UploadVolume(session, input, sends, length).result.Success?
       <==> && session.opens && session.starts && session.finish == Works
            && TakesAll(input, sends, 0, 0, n) && |contents| == length
    ensures Flowing(sends) ==> TakesAll(input, sends, 0, 0, n)
    ensures UploadVolume(session, input, sends, length).finished ==>
              UploadVolume(session, input, sends, length).bytes == contents && |contents| == length
    ensures UploadVolume(session, input, sends, length).aborted ==> |contents| != length
  {
    TransferSucceedsIff(input, sends, 0, 0, 0, length, n);
    if Flowing(sends) {
      FlowingTakesAll(input, sends, 0, 0, n);
    }
    WrongSizeIff(input, sends, 0, 0, 0, length, n);
  }

  /** The size is blamed only when it is to blame. */
  lemma {:induction false} WrongSizeIff(input: nat -> Read, sends: nat -> Send, r: nat, k: nat, total: Word64,
                                        length: Word64, n: nat)
    requires EndsAfter(input, r, n)
    ensures Transfer(input, sends, r, k, total, length).1 == Failure(SizeChanged) ==>
              total + |Delivered(input, r, n)| != length
    decreases n
  {
    var chunk := ReadChunk(input(r));
    if n == 0 {
      assert chunk == Some([]);
    } else {
      assert chunk.Some? && chunk.value != [];
      SizeIsNotBlamed(chunk.value, sends, k);
      if total + |chunk.value| < BOUND {
        WrongSizeIff(input, sends, r + 1, SendChunk(chunk.value, sends, k).next, total + |chunk.value|, length, n - 1);
      }
    }
  }

  lemma {:induction false} SizeIsNotBlamed(chunk: seq<Byte>, sends: nat -> Send, k: nat)
    ensures SendChunk(chunk, sends, k).error != Some(SizeChanged)
    decreases |chunk|
  {
    if chunk != [] {
      var count := Taken(sends(k), |chunk|);
      if count.Some? && count.value > 0 {
        SizeIsNotBlamed(chunk[count.value..], sends, k + 1);
      }
    }
  }

  // ---------------------------------------------------------------- why an upload fails

  /** What the first sends get across, each of them taking something of a chunk that they do not use up. */
  ghost predicate Advances(chunk: seq<Byte>, sends: nat -> Send, k: nat, n: nat, sent: nat)
    decreases n
  {
    if n == 0 then sent == 0 && chunk != []
    else
      && chunk != [] && sends(k).Takes? && 0 < sends(k).count <= sent && sends(k).count < |chunk|
      && Advances(chunk[sends(k).count..], sends, k + 1, n - 1, sent - sends(k).count)
  }

  /** The first send that fails or takes nothing ends the chunk: which of the two decides the error. */
  lemma {:induction false} ChunkStops(chunk: seq<Byte>, sends: nat -> Send, k: nat, n: nat, sent: nat)
    requires Advances(chunk, sends, k, n, sent) && (sends(k + n) == SendFails || sends(k + n) == Takes(0))
    ensures sent < |chunk|
    ensures SendChunk(chunk, sends, k)
         == Sent(chunk[..sent], k + n + 1, Some(if sends(k + n) == SendFails then Broken else StoppedAccepting))
    decreases n
  {
    if n > 0 {
      var count := sends(k).count;
      ChunkStops(chunk[count..], sends, k + 1, n - 1, sent - count);
      assert chunk[..count] + chunk[count..][..sent - count] == chunk[..sent];
    }
  }

  /** The send with which a given number of whole chunks is through. */
  function NextSend(input: nat -> Read, sends: nat -> Send, r: nat, k: nat, n: nat): nat
    decreases n
  {
    if n == 0 || ReadChunk(input(r)).None? then k
    else NextSend(input, sends, r + 1, SendChunk(ReadChunk(input(r)).value, sends, k).next, n - 1)
  }

  /** Chunks that are all taken leave the transfer where it would be with their bytes counted. */
  lemma {:induction false} TransferGoesOn(input: nat -> Read, sends: nat -> Send, r: nat, k: nat, total: Word64,
                                          length: Word64, n: nat)
    requires forall i :: r <= i < r + n ==> ReadChunk(input(i)).Some? && ReadChunk(input(i)).value != []
    requires TakesAll(input, sends, r, k, n) && total + |Delivered(input, r, n)| < BOUND
    ensures var rest := Transfer(input, sends, r + n, NextSend(input, sends, r, k, n),
                                 total + |Delivered(input, r, n)|, length);
            Transfer(input, sends, r, k, total, length) == (Delivered(input, r, n) + rest.0, rest.1)
    decreases n
  {
    hide Transfer, SendChunk, ReadChunk;
    if n == 0 {
      assert Delivered(input, r, 0) == [];
      assert [] + Transfer(input, sends, r, k, total, length).0 == Transfer(input, sends, r, k, total, length).0;
    } else {
      var chunk := ReadChunk(input(r)).value;
      var next := SendChunk(chunk, sends, k).next;
      TransferStep(input, sends, r, k, total, length);
      TransferGoesOn(input, sends, r + 1, next, total + |chunk|, length, n - 1);
      Associates(chunk, Delivered(input, r + 1, n - 1),
                 Transfer(input, sends, r + n, NextSend(input, sends, r, k, n),
                          total + |Delivered(input, r, n)|, length).0);
    }
  }

  lemma TransferStep(input: nat -> Read, sends: nat -> Send, r: nat, k: nat, total: Word64, length: Word64)
    requires ReadChunk(input(r)).Some? && ReadChunk(input(r)).value != []
    requires SendChunk(ReadChunk(input(r)).value, sends, k).error.None?
    requires total + |ReadChunk(input(r)).value| < BOUND
    ensures var chunk := ReadChunk(input(r)).value;
            var rest := Transfer(input, sends, r + 1, SendChunk(chunk, sends, k).next, total + |chunk|, length);
            Transfer(input, sends, r, k, total, length) == (chunk + rest.0, rest.1)
  {
    ChunkArrives(ReadChunk(input(r)).value, sends, k);
    hide SendChunk, ReadChunk;
  }

  /**
   What ends a transfer after chunks that were all taken: a failing read, the end of a file of another size,
   the failure of sending the next chunk, or a size beyond 64 bits, each with its error and with what has
   arrived by then.
   */
  lemma TransferStops(input: nat -> Read, sends: nat -> Send, length: Word64, n: nat)
    requires forall i :: 0 <= i < n ==> ReadChunk(input(i)).Some? && ReadChunk(input(i)).value != []
    requires TakesAll(input, sends, 0, 0, n) && |Delivered(input, 0, n)| < BOUND
    ensures var done, k, whole := Delivered(input, 0, n), NextSend(input, sends, 0, 0, n),
                                  Transfer(input, sends, 0, 0, 0, length);
            && (input(n) == ReadFails ==> whole == (done, Failure(Broken)))
            && (input(n) == Delivers([]) ==>
                  whole == (done, if |done| == length then Success(()) else Failure(SizeChanged)))
            && (input(n).Delivers? && input(n).bytes != [] ==>
                  var chunk := input(n).bytes[..if |input(n).bytes| < BUFFER then |input(n).bytes| else BUFFER];
                  var sent := SendChunk(chunk, sends, k);
                  && (sent.error.Some? ==> whole == (done + sent.bytes, Failure(sent.error.value)))
                  && (sent.error.None? && |done| + |chunk| >= BOUND ==>
                        whole == (done + chunk, Failure(Overflowed))))
  {
    TransferGoesOn(input, sends, 0, 0, 0, length, n);
    assert Delivered(input, 0, n) + [] == Delivered(input, 0, n);
    if input(n).Delivers? && input(n).bytes != [] {
      var chunk := ReadChunk(input(n)).value;
      assert chunk == input(n).bytes[..if |input(n).bytes| < BUFFER then |input(n).bytes| else BUFFER];
      ChunkArrives(chunk, sends, NextSend(input, sends, 0, 0, n));
    }
    hide SendChunk;
  }

  /** How an upload of a whole file ends, with its stream, when no chunk is refused; it is never both closed ways. */
  lemma UploadEnds(session: Session, input: nat -> Read, sends: nat -> Send, contents: seq<Byte>, length: Word64,
                   n: nat)
    requires ReadsFile(input, contents, 0, n) && TakesAll(input, sends, 0, 0, n) && |contents| < BOUND
    ensures UploadVolume(session, input, sends, length)
         == if !session.opens || !session.starts then Uploaded([], false, false, Failure(Broken))
            else if |contents| == length then
              Uploaded(contents, session.finish != FailsBefore, false,
                       if session.finish == Works then Success(()) else Failure(Broken))
            else
              Uploaded(contents, false, session.abort != FailsBefore,
                       if session.abort == Works then Failure(SizeChanged) else Failure(Broken))
  {
    hide TakesAll, ReadChunk;
    TransferGoesOn(input, sends, 0, 0, 0, length, n);
    AtTheEnd(input, sends, n, NextSend(input, sends, 0, 0, n), |contents|, length);
    assert contents + [] == contents;
    hide Transfer;
  }

  lemma AtTheEnd(input: nat -> Read, sends: nat -> Send, r: nat, k: nat, total: Word64, length: Word64)
    requires ReadChunk(input(r)) == Some([])
    ensures Transfer(input, sends, r, k, total, length)
         == ([], if total == length then Success(()) else Failure(SizeChanged))
  {
  }

  /** After any failure but a wrong size the stream is left open, and the failure is the one reported. */
  lemma FailureLeavesOpen(session: Session, input: nat -> Read, sends: nat -> Send, length: Word64)
    requires session.opens && session.starts
    requires Transfer(input, sends, 0, 0, 0, length).1.Failure?
    requires Transfer(input, sends, 0, 0, 0, length).1 != Failure(SizeChanged)
    ensures var sent := Transfer(input, sends, 0, 0, 0, length);
            UploadVolume(session, input, sends, length) == Uploaded(sent.0, false, false, sent.1)
  {
    hide Transfer;
  }

  // ---------------------------------------------------------------- the upload as it runs

  /** The stream into the volume: what it has received, and whether it was closed as complete or aborted. */
  class Stream {
    var received: seq<Byte>
    var finished: bool
    var aborted: bool
    var calls: nat
    const sends: nat -> Send

    constructor (sends: nat -> Send)
      ensures received == [] && !finished && !aborted && calls == 0 && this.sends == sends
    {
      this.sends, received, finished, aborted, calls := sends, [], false, false, 0;
    }

    method Finish(fault: Fault) returns (ok: bool)
      modifies this`finished
      ensures finished == (old(finished) || fault != FailsBefore) && ok == (fault == Works)
    {
      finished := finished || fault != FailsBefore;
      ok := fault == Works;
    }

    method Abort(fault: Fault) returns (ok: bool)
      modifies this`aborted
      ensures aborted == (old(aborted) || fault != FailsBefore) && ok == (fault == Works)
    {
      aborted := aborted || fault != FailsBefore;
      ok := fault == Works;
    }

    method Send(bytes: seq<Byte>) returns (count: Option<nat>)
      requires bytes != []
      modifies this`received, this`calls
      ensures count == Taken(sends(old(calls)), |bytes|) && calls == old(calls) + 1
      ensures received == old(received) + if count.Some? then bytes[..count.value] else []
    {
      count := Taken(sends(calls), |bytes|);
      if count.Some? {
        received := received + bytes[..count.value];
      }
      calls := calls + 1;
    }
  }

  method SendBuffer(stream: Stream, chunk: seq<Byte>) returns (error: Option<UploadError>)
    modifies stream`received, stream`calls
    ensures stream.received == old(stream.received) + SendChunk(chunk, stream.sends, old(stream.calls)).bytes
    ensures stream.calls == SendChunk(chunk, stream.sends, old(stream.calls)).next
    ensures error == SendChunk(chunk, stream.sends, old(stream.calls)).error
  {
    var sent := 0;
    ghost var whole := SendChunk(chunk, stream.sends, stream.calls);
    ghost var before := stream.received;
    assert chunk[sent..] == chunk;
    while sent < |chunk|
      invariant sent <= |chunk|
      invariant stream.received + SendChunk(chunk[sent..], stream.sends, stream.calls).bytes == before + whole.bytes
      invariant SendChunk(chunk[sent..], stream.sends, stream.calls).next == whole.next
      invariant SendChunk(chunk[sent..], stream.sends, stream.calls).error == whole.error
    {
      var offered := chunk[sent..];
      ghost var calls, received := stream.calls, stream.received;
      var count := stream.Send(offered);
      if count.None? {
        return Some(Broken);
      }
      if count.value == 0 {
        return Some(StoppedAccepting);
      }
      assert offered[count.value..] == chunk[sent + count.value..];
      Associates(received, offered[..count.value],
                 SendChunk(chunk[sent + count.value..], stream.sends, stream.calls).bytes);
      sent := sent + count.value;
    }
    assert chunk[sent..] == [];
    error := None;
  }

  /** The loop over the file: reads a chunk, sends it piece by piece, counts, until the end or an error. */
  method SendFile(stream: Stream, input: nat -> Read, length: Word64) returns (result: Result<(), UploadError>)
    modifies stream`received, stream`calls
    ensures stream.received == old(stream.received) + Transfer(input, stream.sends, 0, old(stream.calls), 0, length).0
    ensures result == Transfer(input, stream.sends, 0, old(stream.calls), 0, length).1
  {
    hide SendChunk;
    var total: Word64 := 0;
    var r := 0;
    ghost var whole := Transfer(input, stream.sends, 0, stream.calls, 0, length);
    ghost var before := stream.received;
    while true
      invariant stream.received + Transfer(input, stream.sends, r, stream.calls, total, length).0 == before + whole.0
      invariant Transfer(input, stream.sends, r, stream.calls, total, length).1 == whole.1
      decreases BOUND - total
    {
      var chunk := ReadChunk(input(r));
      if chunk.None? {
        return Failure(Broken);
      }
      if chunk.value == [] {
        break;
      }
      ghost var received, sent := stream.received, SendChunk(chunk.value, stream.sends, stream.calls);
      var error := SendBuffer(stream, chunk.value);
      if error.Some? {
        return Failure(error.value);
      }
      if total + |chunk.value| >= BOUND {
        return Failure(Overflowed);
      }
      total := total + |chunk.value|;
      r := r + 1;
      Associates(received, sent.bytes, Transfer(input, stream.sends, r, stream.calls, total, length).0);
    }
    result := if total != length then Failure(SizeChanged) else Success(());
  }

  method UploadFile(session: Session, stream: Stream, input: nat -> Read, length: Word64)
    returns (result: Result<(), UploadError>)
    requires stream.received == [] && !stream.finished && !stream.aborted && stream.calls == 0
    modifies stream
    ensures Uploaded(stream.received, stream.finished, stream.aborted, result)
         == UploadVolume(session, input, stream.sends, length)
  {
    hide Transfer;
    if !session.opens || !session.starts {
      return Failure(Broken);
    }
    result := SendFile(stream, input, length);
    assert stream.received == Transfer(input, stream.sends, 0, 0, 0, length).0;
    if result == Failure(SizeChanged) {
      var aborted := stream.Abort(session.abort);
      return Failure(if aborted then SizeChanged else Broken);
    }
    if result.Success? {
      var finished := stream.Finish(session.finish);
      result := if finished then Success(()) else Failure(Broken);
    }
  }
}
