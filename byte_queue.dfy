/**
 * `SSHTunnelService.ByteQueue`: a fixed-capacity circular byte buffer shared
 * by one producer and one consumer of terminal output.
 *
 * The Java class blocks a reader on an empty queue and a writer on a full
 * one. Here each call is sequential, and the blocking becomes a precondition
 * on the calls that would reach the blocking section: `Read` on an empty
 * queue and a `Write` larger than the free space never return in a
 * single-threaded run.
 */
module ByteQueues {
  import opened JavaLang

  /** The exceptions the two transfer operations can throw. */
  datatype Exception = IllegalArgument(message: string) | IndexOutOfBounds

  datatype Outcome<+T> = Returned(value: T) | Threw(exception: Exception)

  /**
   * The two argument checks both `read` and `write` make, in their order,
   * before touching any state.
   */
  function ArgumentCheck(bufferLength: int, offset: int, length: int): (e: Option<Exception>)
    ensures e == None <==> length + offset <= bufferLength && length >= 0
    ensures e.Some? ==> e.value.IllegalArgument? && (e.value.message == "length < 0" <==> length + offset <= bufferLength)
  {
    if length + offset > bufferLength then Some(IllegalArgument("length + offset > buffer.length"))
    else if length < 0 then Some(IllegalArgument("length < 0"))
    else None
  }

  /** True when a call with these arguments gets past the checks and moves bytes. */
  predicate Transfers(bufferLength: int, offset: int, length: int)
  {
    ArgumentCheck(bufferLength, offset, length) == None && length > 0 && offset >= 0
  }

  /** The index `i` places past `head` in a circular buffer of `capacity` cells. */
  function SlotOf(head: int, capacity: int, i: int): int
  {
    if head + i < capacity then head + i else head + i - capacity
  }

  /** `System.arraycopy` for two distinct arrays whose ranges are in bounds. */
  method ArrayCopy(src: array<byte>, srcPos: int, dest: array<byte>, destPos: int, length: int)
    requires src != dest
    requires 0 <= srcPos && 0 <= destPos && 0 <= length
    requires srcPos + length <= src.Length && destPos + length <= dest.Length
    modifies dest
    ensures dest[destPos..destPos + length] == src[srcPos..srcPos + length]
    ensures dest[..destPos] == old(dest[..destPos])
    ensures dest[destPos + length..] == old(dest[destPos + length..])
  {
    var i := 0;
    while i < length
      invariant 0 <= i <= length
      invariant dest[destPos..destPos + i] == src[srcPos..srcPos + i]
      invariant dest[..destPos] == old(dest[..destPos])
      invariant dest[destPos + length..] == old(dest[destPos + length..])
    {
      dest[destPos + i] := src[srcPos + i];
      i := i + 1;
    }
  }

  /**
   * `contents` sits in the circular buffer `cells` starting at `head`: the
   * byte with index `i` is in cell `SlotOf(head, |cells|, i)`.
   */
  ghost predicate Stored(contents: seq<byte>, cells: seq<byte>, head: int)
  {
    forall i :: 0 <= i < |contents| ==>
      0 <= SlotOf(head, |cells|, i) < |cells| && contents[i] == cells[SlotOf(head, |cells|, i)]
  }

  /** Taking `n` bytes from a run at the head leaves the rest stored past the advanced head. */
  lemma Dropped(contents: seq<byte>, cells: seq<byte>, head: int, n: int)
    requires Stored(contents, cells, head)
    requires 0 <= head && 0 <= n <= |contents| && head + n <= |cells|
    ensures cells[head..head + n] == contents[..n]
    ensures Stored(contents[n..], cells, if head + n >= |cells| then 0 else head + n)
  {
    forall i | 0 <= i < n
      ensures cells[head..head + n][i] == contents[..n][i]
    {
      assert SlotOf(head, |cells|, i) == head + i;
    }
    var head' := if head + n >= |cells| then 0 else head + n;
    forall i | 0 <= i < |contents[n..]|
      ensures 0 <= SlotOf(head', |cells|, i) < |cells| && contents[n..][i] == cells[SlotOf(head', |cells|, i)]
    {
      assert SlotOf(head', |cells|, i) == SlotOf(head, |cells|, i + n);
    }
  }

  /**
   * Writing `src` into the free run that starts at the tail slot stores it
   * after the old contents, the cells holding them being left alone.
   */
  lemma Appended(contents: seq<byte>, cells: seq<byte>, cells': seq<byte>, head: int, tail: int, src: seq<byte>)
    requires Stored(contents, cells, head)
    requires 0 <= head < |cells| && |contents| + |src| <= |cells|
    requires tail == SlotOf(head, |cells|, |contents|) && 0 <= tail && tail + |src| <= |cells|
    requires head + |contents| >= |cells| ==> tail + |src| <= head
    requires |cells'| == |cells|
    requires cells'[..tail] == cells[..tail] && cells'[tail + |src|..] == cells[tail + |src|..]
    requires cells'[tail..tail + |src|] == src
    ensures Stored(contents + src, cells', head)
  {
    var n, m := |src|, |contents|;
    forall i | 0 <= i < m + n
      ensures 0 <= SlotOf(head, |cells|, i) < |cells| && (contents + src)[i] == cells'[SlotOf(head, |cells|, i)]
    {
      var k := SlotOf(head, |cells|, i);
      if i < m {
        assert k < tail || k >= tail + n;
        if k < tail {
          assert cells'[..tail][k] == cells[..tail][k];
        } else {
          assert cells'[tail + n..][k - tail - n] == cells[tail + n..][k - tail - n];
        }
      } else {
        assert k == tail + (i - m);
        assert cells'[tail..tail + n][i - m] == src[i - m];
      }
    }
  }

  /**
   * One more run copied out at the end of what `read` has already delivered
   * extends the delivered prefix and leaves the rest of the caller's buffer
   * as it was before the call.
   */
  lemma CopiedOn(orig: seq<byte>, before: seq<byte>, after: seq<byte>, c0: seq<byte>, offset: int, total: int, k: int)
    requires |orig| == |before| == |after|
    requires 0 <= offset && 0 <= total && 0 <= k && total + k <= |c0| && offset + total + k <= |orig|
    requires before[offset..offset + total] == c0[..total]
    requires before[..offset] == orig[..offset] && before[offset + total..] == orig[offset + total..]
    requires after[offset + total..offset + total + k] == c0[total..][..k]
    requires after[..offset + total] == before[..offset + total]
    requires after[offset + total + k..] == before[offset + total + k..]
    ensures after[offset..offset + total + k] == c0[..total + k]
    ensures after[..offset] == orig[..offset]
    ensures after[offset + total + k..] == orig[offset + total + k..]
  {
    var off := offset + total;
    assert after[offset..off + k] == after[offset..off] + after[off..off + k];
    assert after[offset..off] == before[offset..off] by {
      assert after[..off][offset..] == before[..off][offset..];
    }
    assert c0[..total + k] == c0[..total] + c0[total..][..k];
    assert after[..offset] == before[..offset] by {
      assert after[..off][..offset] == before[..off][..offset];
    }
    assert before[off + k..] == orig[off + k..] by {
      assert before[off..][k..] == orig[off..][k..];
    }
  }

  class ByteQueue {
    const mBuffer: array<byte>
    var mHead: int
    var mStoredBytes: int
    /** The stored bytes, oldest first. */
    ghost var Contents: seq<byte>

    ghost predicate Valid()
      reads this, mBuffer
    {
      && 0 <= mStoredBytes <= mBuffer.Length
      && 0 <= mHead
      && (mHead < mBuffer.Length || (mBuffer.Length == 0 && mHead == 0))
      && |Contents| == mStoredBytes
      && Stored(Contents, mBuffer[..], mHead)
    }

    function Capacity(): nat
      reads this
    {
      mBuffer.Length
    }

    constructor (size: nat)
      ensures Valid() && fresh(mBuffer)
      ensures Capacity() == size && Contents == [] && mHead == 0
    {
      mBuffer := new byte[size];
      mHead, mStoredBytes := 0, 0;
      Contents := [];
    }

    method GetBytesAvailable() returns (n: int)
      requires Valid()
      ensures n == |Contents| && 0 <= n <= Capacity()
    {
      n := mStoredBytes;
    }

    /**
     * Copies the oldest `min(length, stored)` bytes into
     * `buffer[offset..]` and removes them from the queue.
     */
    method Read(buffer: array<byte>, offset: int, length: int) returns (r: Outcome<int>)
      requires Valid() && buffer != mBuffer
      requires Transfers(buffer.Length, offset, length) ==> |Contents| > 0
      modifies this, buffer
      ensures Valid() && Capacity() == old(Capacity())
      ensures ArgumentCheck(buffer.Length, offset, length).Some? ==>
        && r == Threw(ArgumentCheck(buffer.Length, offset, length).value)
        && unchanged(this) && buffer[..] == old(buffer[..])
      ensures ArgumentCheck(buffer.Length, offset, length) == None && length == 0 ==>
        r == Returned(0) && unchanged(this) && buffer[..] == old(buffer[..])
      ensures ArgumentCheck(buffer.Length, offset, length) == None && length > 0 && offset < 0 ==>
        r == Threw(IndexOutOfBounds) && Contents == old(Contents) && buffer[..] == old(buffer[..])
      ensures Transfers(buffer.Length, offset, length) ==>
        && var n := Min(length, old(|Contents|));
        && r == Returned(n) && n >= 1
        && buffer[offset..offset + n] == old(Contents)[..n]
        && Contents == old(Contents)[n..]
        && buffer[..offset] == old(buffer[..offset])
        && buffer[offset + n..] == old(buffer[offset + n..])
    {
      var check := ArgumentCheck(buffer.Length, offset, length);
      if check.Some? {
        return Threw(check.value);
      }
      if length == 0 {
        return Returned(0);
      }
      if offset < 0 {
        // System.arraycopy rejects the negative position before copying.
        return Threw(IndexOutOfBounds);
      }
      var totalRead := CopyOut(buffer, offset, length);
      return Returned(totalRead);
    }

    /**
     * The copy loop of `read`, once the arguments are known good: runs of
     * the stored bytes are copied out until the request is met or the
     * queue is empty.
     */
    method CopyOut(buffer: array<byte>, offset: int, length: int) returns (totalRead: int)
      requires Valid() && buffer != mBuffer
      requires Transfers(buffer.Length, offset, length) && |Contents| > 0
      modifies this, buffer
      ensures Valid() && Capacity() == old(Capacity())
      ensures totalRead == Min(length, old(|Contents|))
      ensures buffer[offset..offset + totalRead] == old(Contents)[..totalRead]
      ensures Contents == old(Contents)[totalRead..]
      ensures buffer[..offset] == old(buffer[..offset])
      ensures buffer[offset + totalRead..] == old(buffer[offset + totalRead..])
    {
      ghost var c0, orig := Contents, buffer[..];
      totalRead := 0;
      var off, len := offset, length;
      while len > 0 && mStoredBytes > 0
        invariant Valid() && buffer != mBuffer
        invariant 0 <= totalRead <= |c0| && totalRead <= length
        invariant len == length - totalRead && off == offset + totalRead
        invariant Contents == c0[totalRead..]
        invariant buffer[offset..off] == c0[..totalRead]
        invariant buffer[..offset] == orig[..offset]
        invariant buffer[off..] == orig[off..]
        decreases len
      {
        var bytesToCopy := CopyNext(buffer, offset, off, len, c0, orig);
        len := len - bytesToCopy;
        off := off + bytesToCopy;
        totalRead := totalRead + bytesToCopy;
      }
    }

    /**
     * One iteration of the copy loop of `read`: the longest run that is
     * both stored contiguously from the head and still requested.
     */
    method CopyNext(buffer: array<byte>, offset: int, off: int, len: int, ghost c0: seq<byte>, ghost orig: seq<byte>) returns (n: int)
      requires Valid() && buffer != mBuffer && |Contents| > 0 && len > 0
      requires 0 <= offset <= off && off + len <= buffer.Length && |orig| == buffer.Length
      requires off - offset <= |c0| && Contents == c0[off - offset..]
      requires buffer[offset..off] == c0[..off - offset]
      requires buffer[..offset] == orig[..offset] && buffer[off..] == orig[off..]
      modifies this, buffer
      ensures Valid() && 0 < n <= len && n <= old(|Contents|)
      ensures Contents == c0[off - offset + n..]
      ensures buffer[offset..off + n] == c0[..off - offset + n]
      ensures buffer[..offset] == orig[..offset] && buffer[off + n..] == orig[off + n..]
    {
      var oneRun := Min(mBuffer.Length - mHead, mStoredBytes);
      n := Min(len, oneRun);
      ghost var before := buffer[..];
      ReadRun(buffer, off, n);
      CopiedOn(orig, before, buffer[..], c0, offset, off - offset, n);
    }

    /**
     * Appends `buffer[offset..offset + length]` at the tail, leaving the head
     * where it is.
     */
    method Write(buffer: array<byte>, offset: int, length: int) returns (thrown: Option<Exception>)
      requires Valid() && buffer != mBuffer
      requires Transfers(buffer.Length, offset, length) ==> length <= Capacity() - |Contents|
      modifies this, mBuffer
      ensures Valid() && mHead == old(mHead)
      ensures ArgumentCheck(buffer.Length, offset, length).Some? ==>
        thrown == ArgumentCheck(buffer.Length, offset, length) && unchanged(this) && mBuffer[..] == old(mBuffer[..])
      ensures ArgumentCheck(buffer.Length, offset, length) == None && length == 0 ==>
        thrown == None && unchanged(this) && mBuffer[..] == old(mBuffer[..])
      ensures ArgumentCheck(buffer.Length, offset, length) == None && length > 0 && offset < 0 ==>
        thrown == Some(IndexOutOfBounds) && unchanged(this) && mBuffer[..] == old(mBuffer[..])
      ensures Transfers(buffer.Length, offset, length) ==>
        thrown == None && Contents == old(Contents) + buffer[offset..offset + length]
    {
      var check := ArgumentCheck(buffer.Length, offset, length);
      if check.Some? {
        return check;
      }
      if length == 0 {
        return None;
      }
      if offset < 0 {
        // System.arraycopy rejects the negative position before copying.
        return Some(IndexOutOfBounds);
      }
      ghost var c0 := Contents;
      var off, len := offset, length;
      while len > 0
        invariant Valid() && buffer != mBuffer && mHead == old(mHead)
        invariant offset <= off && 0 <= len && len == length - (off - offset)
        invariant len <= Capacity() - |Contents|
        invariant Contents == c0 + buffer[offset..off]
        decreases len
      {
        // In Java the writer would wait here while the queue is full; the
        // precondition keeps it from ever being full with bytes left to write.
        var bytesToCopy := WriteRun(buffer, off, len);
        assert buffer[offset..off + bytesToCopy] == buffer[offset..off] + buffer[off..off + bytesToCopy];
        off := off + bytesToCopy;
        len := len - bytesToCopy;
      }
      return None;
    }

    /**
     * One pass of the copy loop in `write`: compute the tail (wrapping
     * around the end of the array), copy as much as fits in the contiguous
     * free run there, and count it as stored.
     */
    method WriteRun(buffer: array<byte>, off: int, len: int) returns (n: int)
      requires Valid() && buffer != mBuffer
      requires 0 < len && 0 <= off && off + len <= buffer.Length
      requires mStoredBytes < mBuffer.Length
      modifies this, mBuffer
      ensures Valid() && mHead == old(mHead)
      ensures 0 < n <= len && mStoredBytes == old(mStoredBytes) + n
      ensures Contents == old(Contents) + buffer[off..off + n]
    {
      var bufferLength := mBuffer.Length;
      var tail := mHead + mStoredBytes;
      var oneRun;
      if tail >= bufferLength {
        tail := tail - bufferLength;
        oneRun := mHead - tail;
      } else {
        oneRun := bufferLength - tail;
      }
      n := Min(oneRun, len);
      ghost var cells := mBuffer[..];
      ArrayCopy(buffer, off, mBuffer, tail, n);
      Appended(Contents, cells, mBuffer[..], mHead, tail, buffer[off..off + n]);
      mStoredBytes := mStoredBytes + n;
      Contents := Contents + buffer[off..off + n];
    }

    /**
     * One pass of the copy loop in `read`: `n` bytes that lie in one
     * contiguous run from the head are copied out, and the head advances,
     * wrapping to 0 at the end of the array.
     */
    method ReadRun(buffer: array<byte>, off: int, n: int)
      requires Valid() && buffer != mBuffer
      requires 0 < n <= mStoredBytes && mHead + n <= mBuffer.Length
      requires 0 <= off && off + n <= buffer.Length
      modifies this, buffer
      ensures Valid()
      ensures Contents == old(Contents)[n..] && mStoredBytes == old(mStoredBytes) - n
      ensures mHead == if old(mHead) + n >= mBuffer.Length then 0 else old(mHead) + n
      ensures buffer[off..off + n] == old(Contents)[..n]
      ensures buffer[..off] == old(buffer[..off])
      ensures buffer[off + n..] == old(buffer[off + n..])
    {
      Dropped(Contents, mBuffer[..], mHead, n);
      ArrayCopy(mBuffer, mHead, buffer, off, n);
      mHead := mHead + n;
      if mHead >= mBuffer.Length {
        mHead := 0;
      }
      mStoredBytes := mStoredBytes - n;
      Contents := Contents[n..];
    }
  }
}
