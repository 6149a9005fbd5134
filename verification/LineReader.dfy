/**
 The line-bounded reader in front of the agent's standard output. The caller chooses its
 buffer sizes and the inner stream chooses its chunks; `consumed` is what the inner
 stream has produced and `delivered` what the caller has received.
 */
module LineReader {
  import opened Bytes

  const SCRATCH_BYTES: nat := 8 * 1024

  /** What one poll of the inner stream may answer. */
  datatype InnerPoll = Chunk(bytes: seq<Byte>) | InnerPending | InnerFailed

  datatype Poll = Data(bytes: seq<Byte>) | Pending | Failed | FrameTooLong

  /** Bytes since the last newline. */
  function CurrentLine(bytes: seq<Byte>): (n: nat)
    ensures n <= |bytes|
  {
    if bytes == [] || bytes[|bytes| - 1] == NEWLINE then 0 else CurrentLine(bytes[..|bytes| - 1]) + 1
  }

  /** Some line, finished or not, is longer than the limit. */
  ghost predicate HasLongLine(bytes: seq<Byte>, limit: nat) {
    exists i, j :: LongLineAt(bytes, limit, i, j)
  }

  predicate LongLineAt(bytes: seq<Byte>, limit: nat, i: nat, j: nat) {
    i <= j <= |bytes| && j - i > limit && NEWLINE !in bytes[i..j]
  }

  lemma {:induction false} CurrentLineIsFreeOfNewlines(bytes: seq<Byte>)
    ensures
      var n := CurrentLine(bytes);
      && NEWLINE !in bytes[|bytes| - n..]
      && (n < |bytes| ==> bytes[|bytes| - n - 1] == NEWLINE)
  {
    if bytes != [] && bytes[|bytes| - 1] != NEWLINE {
      var front := bytes[..|bytes| - 1];
      CurrentLineIsFreeOfNewlines(front);
      var n := CurrentLine(front);
      assert bytes[|bytes| - n - 1..] == front[|front| - n..] + [bytes[|bytes| - 1]];
    }
  }

  /** One more byte makes a line too long exactly when the counter passes the limit. */
  lemma LongLineGrows(bytes: seq<Byte>, next: Byte, limit: nat)
    ensures HasLongLine(bytes + [next], limit) <==>
      HasLongLine(bytes, limit) || (next != NEWLINE && CurrentLine(bytes) + 1 > limit)
  {
    var all := bytes + [next];
    if HasLongLine(bytes, limit) {
      var i: nat, j: nat :| LongLineAt(bytes, limit, i, j);
      assert all[i..j] == bytes[i..j];
      assert LongLineAt(all, limit, i, j);
    } else if next != NEWLINE && CurrentLine(bytes) + 1 > limit {
      CurrentLineIsFreeOfNewlines(bytes);
      var i := |bytes| - CurrentLine(bytes);
      assert all[i..] == bytes[i..] + [next] && all[i..|all|] == all[i..];
      assert LongLineAt(all, limit, i, |all|);
    }
    if HasLongLine(all, limit) {
      var i: nat, j: nat :| LongLineAt(all, limit, i, j);
      ShorterEvidence(bytes, next, limit, i, j);
    }
  }

  lemma ShorterEvidence(bytes: seq<Byte>, next: Byte, limit: nat, i: nat, j: nat)
    requires LongLineAt(bytes + [next], limit, i, j)
    ensures HasLongLine(bytes, limit) || (next != NEWLINE && CurrentLine(bytes) + 1 > limit)
  {
    var all := bytes + [next];
    if j <= |bytes| {
      assert all[i..j] == bytes[i..j];
      assert LongLineAt(bytes, limit, i, j);
    } else {
      CurrentLineIsFreeOfNewlines(bytes);
      var n := CurrentLine(bytes);
      assert all[i..j][|bytes| - i] == next;
      assert forall k :: i <= k < |bytes| ==> bytes[k] == all[i..j][k - i];
    }
  }

  class BoundedLineReader {
    const maximumLineBytes: nat
    var currentLineBytes: nat
    var pending: seq<Byte>
    var pendingOffset: nat
    ghost var consumed: seq<Byte>
    ghost var delivered: seq<Byte>
    ghost var tooLong: bool

    /** Until a frame is too long, nothing is lost, invented or reordered, and every line is within the limit. */
    ghost predicate Valid()
      reads this
    {
      && (pendingOffset < |pending| || (pending == [] && pendingOffset == 0))
      && (!tooLong ==>
            && delivered + pending[pendingOffset..] == consumed
            && currentLineBytes == CurrentLine(consumed)
            && !HasLongLine(consumed, maximumLineBytes))
    }

    constructor (maximumLineBytes: nat)
      ensures Valid() && !tooLong && consumed == [] && delivered == []
      ensures this.maximumLineBytes == maximumLineBytes
    {
      this.maximumLineBytes := maximumLineBytes;
      currentLineBytes, pending, pendingOffset := 0, [], 0;
      consumed, delivered, tooLong := [], [], false;
    }

    /** Walks over a chunk that the inner stream just produced. */
    method CountLines(received: seq<Byte>) returns (ok: bool)
      requires Valid()
      modifies this`currentLineBytes
      ensures !tooLong ==> (ok <==> !HasLongLine(consumed + received, maximumLineBytes))
      ensures !tooLong && ok ==> currentLineBytes == CurrentLine(consumed + received)
    {
      assert consumed + received[..0] == consumed;
      var i := 0;
      while i < |received|
        invariant 0 <= i <= |received|
        invariant !tooLong ==> currentLineBytes == CurrentLine(consumed + received[..i])
        invariant !tooLong ==> !HasLongLine(consumed + received[..i], maximumLineBytes)
      {
        ghost var before := consumed + received[..i];
        assert consumed + received[..i + 1] == before + [received[i]];
        LongLineGrows(before, received[i], maximumLineBytes);
        if received[i] == NEWLINE {
          currentLineBytes := 0;
        } else {
          currentLineBytes := currentLineBytes + 1;
          if currentLineBytes > maximumLineBytes {
            if !tooLong {
              LongLineStays(before + [received[i]], received[i + 1..], maximumLineBytes);
            }
            assert before + [received[i]] + received[i + 1..] == consumed + received;
            return false;
          }
        }
        assert (before + [received[i]])[..|before|] == before;
        i := i + 1;
      }
      assert received[..i] == received;
      return true;
    }

    method PollRead(remaining: nat, inner: InnerPoll) returns (poll: Poll)
      requires Valid() && (inner.Chunk? ==> |inner.bytes| <= SCRATCH_BYTES)
      modifies this
      ensures Valid()
      // Leftovers go first; only without them is the inner stream polled.
      ensures old(pending) != [] ==> poll.Data? && consumed == old(consumed)
      ensures old(pending) == [] && inner.Chunk? ==> consumed == old(consumed) + inner.bytes
      ensures old(pending) == [] && !inner.Chunk? ==>
        consumed == old(consumed) && poll == (if inner.InnerPending? then Pending else Failed)
      // The first error means that a line really is too long, and such a line is always reported.
      ensures !old(tooLong) ==> (poll.FrameTooLong? <==> tooLong) && (tooLong <==> HasLongLine(consumed, maximumLineBytes))
      ensures old(tooLong) || poll.FrameTooLong? ==> tooLong
      ensures delivered == old(delivered) + (if poll.Data? then poll.bytes else [])
      ensures poll.Data? ==> |poll.bytes| <= remaining
      // A caller with room receives something unless the inner stream ended.
      ensures poll.Data? && remaining > 0 && poll.bytes == [] ==> old(pending) == [] && inner == Chunk([])
    {
      hide HasLongLine;
      hide CurrentLine;
      if pendingOffset < |pending| {
        var bytes := TakePending(remaining);
        return Data(bytes);
      }
      match inner
      case InnerPending =>
        return Pending;
      case InnerFailed =>
        return Failed;
      case Chunk(received) =>
        var ok := CountLines(received);
        if !ok {
          consumed := consumed + received;
          tooLong := true;
          return FrameTooLong;
        }
        var bytes := TakeChunk(received, remaining);
        return Data(bytes);
    }

    /** Hands over what fits and keeps the rest for the next poll. */
    method TakeChunk(received: seq<Byte>, remaining: nat) returns (bytes: seq<Byte>)
      requires pending == [] && pendingOffset == 0
      requires !tooLong ==>
        && delivered == consumed && !HasLongLine(consumed + received, maximumLineBytes)
        && currentLineBytes == CurrentLine(consumed + received)
      modifies this`pending, this`consumed, this`delivered
      ensures Valid() && consumed == old(consumed) + received && delivered == old(delivered) + bytes
      ensures |bytes| <= remaining && (remaining > 0 && received != [] ==> bytes != [])
    {
      hide HasLongLine;
      hide CurrentLine;
      var count := if remaining < |received| then remaining else |received|;
      bytes := received[..count];
      assert received == bytes + received[count..];
      assert !tooLong ==> delivered + bytes + received[count..] == consumed + received;
      consumed := consumed + received;
      delivered := delivered + bytes;
      if count < |received| {
        pending := pending + received[count..];
      }
    }

    method TakePending(remaining: nat) returns (bytes: seq<Byte>)
      requires Valid() && pendingOffset < |pending|
      modifies this`pending, this`pendingOffset, this`delivered
      ensures Valid()
      ensures delivered == old(delivered) + bytes
      ensures |bytes| <= remaining && (remaining > 0 ==> bytes != [])
    {
      var count := if remaining < |pending| - pendingOffset then remaining else |pending| - pendingOffset;
      bytes := pending[pendingOffset..pendingOffset + count];
      assert pending[pendingOffset..] == bytes + pending[pendingOffset + count..];
      delivered := delivered + bytes;
      pendingOffset := pendingOffset + count;
      if pendingOffset == |pending| {
        pending := [];
        pendingOffset := 0;
      }
    }
  }

  lemma LongLineStays(bytes: seq<Byte>, more: seq<Byte>, limit: nat)
    requires HasLongLine(bytes, limit)
    ensures HasLongLine(bytes + more, limit)
  {
    var i: nat, j: nat :| LongLineAt(bytes, limit, i, j);
    assert (bytes + more)[i..j] == bytes[i..j];
    assert LongLineAt(bytes + more, limit, i, j);
  }
}
