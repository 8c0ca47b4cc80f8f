/** SSLBuffer (ssl_buffer.cc): a window of bytes in an allocated block, with 16-bit fields. */
module TlsBuffer {
  import opened Basics

  const MAX_CAPACITY := 0xffff
  const ALIGNMENT := 8

  class SslBuffer {
    var buf: array?<Byte>
    var offset: nat
    var size: nat
    var cap: nat
    /** Set when a block is laid out so that the 16-bit offset could wrap around. */
    ghost var wrapRisk: bool
    /** Set when it did, with bytes left in the buffer. */
    ghost var wrapped: bool
    ghost var contents: seq<Byte>

    ghost predicate Valid()
      reads this, buf
    {
      && contents == (if buf == null then [] else Slice(buf[..], offset, size))
      && offset < TWO16 && size <= cap <= MAX_CAPACITY && (wrapped ==> wrapRisk)
      && if buf == null then offset == 0 && cap == 0
         else offset + cap <= buf.Length && buf.Length < TWO16 + ALIGNMENT && (!wrapRisk ==> offset + cap < TWO16)
    }

    static ghost function Slice(memory: seq<Byte>, offset: nat, size: nat): seq<Byte> {
      if offset + size <= |memory| then memory[offset..offset + size] else []
    }

    constructor ()
      ensures Valid() && buf == null && contents == [] && size == 0 && cap == 0 && !wrapRisk && !wrapped
    {
      buf, offset, size, cap, wrapRisk, wrapped, contents := null, 0, 0, 0, false, false, [];
    }

    method Clear()
      requires Valid()
      modifies this
      ensures Valid() && buf == null && contents == [] && wrapRisk == old(wrapRisk) && wrapped == old(wrapped)
    {
      buf, offset, size, cap, contents := null, 0, 0, 0, [];
    }

    /** How far a block at `address` is offset so that what follows `headerLen` bytes is aligned. */
    static function AlignmentOffset(headerLen: nat, address: nat): (o: nat)
      ensures o < ALIGNMENT && (headerLen + address + o) % ALIGNMENT == 0
    {
      (ALIGNMENT - (headerLen + address) % ALIGNMENT) % ALIGNMENT
    }

    /** A new block is needed, and its end lies beyond what a 16-bit offset can reach. */
    static predicate LaysOutRisk(cap: nat, headerLen: nat, newCap: nat, address: nat) {
      cap < newCap <= MAX_CAPACITY && AlignmentOffset(headerLen, address) + newCap >= TWO16
    }

    /** Makes room for `newCap` bytes in all; a new block is at `address`. */
    method EnsureCap(headerLen: nat, newCap: nat, address: nat) returns (ok: bool)
      requires Valid()
      modifies this
      ensures Valid() && ok == (newCap <= MAX_CAPACITY)
      ensures contents == old(contents) && (ok ==> cap >= newCap) && size == old(size) && wrapped == old(wrapped)
      ensures old(cap) < newCap <= MAX_CAPACITY ==> offset == AlignmentOffset(headerLen, address)
      ensures buf == old(buf) || fresh(buf)
      ensures ok && newCap > 0 ==> buf != null && offset + cap <= buf.Length
      ensures wrapRisk == (old(wrapRisk) || LaysOutRisk(old(cap), headerLen, newCap, address))
    {
      hide AlignmentOffset, AfterConsume;
      if newCap > MAX_CAPACITY {
        return false;
      }
      if cap >= newCap {
        return true;
      }
      var newOffset := AlignmentOffset(headerLen, address);
      var newBuf := new Byte[newCap + ALIGNMENT - 1](_ => 0);
      if buf != null {
        CopyInto(newBuf, newOffset, buf[offset..offset + size]);
      }
      wrapRisk := wrapRisk || newOffset + newCap >= TWO16;
      buf, offset, cap := newBuf, newOffset, newCap;
      return true;
    }

    lemma Empty()
      requires Valid() && size == 0
      ensures contents == []
    {
    }

    /** data() and size() */
    method Data() returns (data: seq<Byte>)
      requires Valid()
      ensures data == contents && |data| == size
    {
      data := if buf == null then [] else buf[offset..offset + size];
    }

    /** Writes into remaining() and then DidWrite. */
    method Append(bytes: seq<Byte>)
      requires Valid() && |bytes| <= cap - size
      modifies this`size, this`contents, buf
      ensures Valid() && contents == old(contents) + bytes
      ensures size == old(size) + |bytes|
      ensures buf != null ==> buf[..offset] == old(buf[..offset])
    {
      if buf == null {
        return;
      }
      CopyInto(buf, offset + size, bytes);
      size := size + |bytes|;
      contents := contents + bytes;
    }

    /** Takes `len` bytes from the front; the offset is a 16-bit field. */
    method Consume(len: nat)
      requires Valid() && len <= size
      modifies this`offset, this`size, this`cap, this`contents, this`wrapped
      ensures Valid() && size == old(size) - len && cap == old(cap) - len
      ensures offset == old(offset) + len - if old(offset) + len < TWO16 then 0 else TWO16
      ensures buf != null ==> contents == AfterConsume(buf[..], old(offset), old(size), len)
      ensures wrapped == (old(wrapped) || (old(offset) + len >= TWO16 && len < old(size)))
      ensures wrapped == old(wrapped) && !wrapped ==> contents == old(contents)[len..]
    {
      hide AfterConsume, Truncated, Slice;
      TruncatedOnce(offset + len);
      if buf != null {
        Consumed(buf[..], offset, size, len);
      }
      wrapped := wrapped || (offset + len >= TWO16 && len < size);
      offset := Truncated(offset + len);
      size := size - len;
      cap := cap - len;
      contents := if buf == null then [] else Slice(buf[..], offset, size);
    }

    method DiscardConsumed()
      requires Valid()
      modifies this
      ensures Valid() && contents == old(contents) && wrapRisk == old(wrapRisk) && wrapped == old(wrapped)
      ensures size == 0 ==> buf == null
    {
      if size == 0 {
        Clear();
      }
    }
  }

  // ----- The 16-bit offset -----

  /** What a 16-bit field holds of a number. */
  function Truncated(n: nat): nat {
    n % TWO16
  }

  lemma TruncatedOnce(n: nat)
    requires n < 2 * TWO16
    ensures Truncated(n) == if n < TWO16 then n else n - TWO16
  {
  }

  /** The contents that Consume leaves, for a block with `cap` usable bytes at `offset`. */
  function AfterConsume(memory: seq<Byte>, offset: nat, size: nat, len: nat): seq<Byte>
    requires offset + size <= |memory| && offset < TWO16 && len <= size <= MAX_CAPACITY
  {
    TruncatedOnce(offset + len);
    var o := Truncated(offset + len);
    memory[o..o + (size - len)]
  }

  /** What is left is what the new offset and size select and, unless that wrapped, the contents less
      their front. */
  lemma Consumed(memory: seq<Byte>, offset: nat, size: nat, len: nat)
    requires offset + size <= |memory| < TWO16 + ALIGNMENT && offset < TWO16 && len <= size <= MAX_CAPACITY
    ensures AfterConsume(memory, offset, size, len) == SslBuffer.Slice(memory, Truncated(offset + len), size - len)
    ensures offset + len < TWO16 || len == size ==>
              AfterConsume(memory, offset, size, len) == SslBuffer.Slice(memory, offset, size)[len..]
  {
    ConsumeExact(|memory|, offset, size, len);
  }

  ghost predicate DropsFront(n: nat, offset: nat, size: nat, len: nat)
    requires offset + size <= n && offset < TWO16 && len <= size <= MAX_CAPACITY
  {
    forall memory: seq<Byte> | |memory| == n ::
      AfterConsume(memory, offset, size, len) == memory[offset..offset + size][len..]
  }

  /** Exactly when Consume drops the front of the contents, whatever they are: when the offset does
      not wrap around, or nothing is left. */
  lemma ConsumeExact(n: nat, offset: nat, size: nat, len: nat)
    requires offset + size <= n < TWO16 + ALIGNMENT && offset < TWO16 && len <= size <= MAX_CAPACITY
    ensures DropsFront(n, offset, size, len) <==> offset + len < TWO16 || len == size
  {
    if offset + len >= TWO16 && len < size {
      var memory := seq(n, i => if i < offset + len then 0 else 1);
      assert AfterConsume(memory, offset, size, len)[0] == 0;
      assert memory[offset..offset + size][len..][0] == 1;
    }
  }

  /** It can wrap: from an empty buffer, in a block of the largest capacity at an aligned address, when
      65530 of 65535 bytes are taken. What is left then are not the bytes that were written, but some
      that were in the block before them. */
  method WrapBuffer() returns (b: SslBuffer, bytes: seq<Byte>, left: seq<Byte>)
    ensures b.Valid() && b.contents == left && b.wrapped
    ensures |bytes| == MAX_CAPACITY && |left| == 5 && left != bytes[65530..]
  {
    hide SslBuffer.Valid, SslBuffer.Slice, AfterConsume;
    b := new SslBuffer();
    var ok := b.EnsureCap(1, MAX_CAPACITY, 0);
    var stale := b.buf[1];
    bytes := Repeated(if stale == 0 then 1 else 0, MAX_CAPACITY);
    b.Append(bytes);
    assert b.buf[1] == b.buf[..7][1] == stale;
    b.Consume(65530);
    WrapsToFront(b.buf[..], bytes, b.contents);
    left := b.Data();
  }

  function Repeated(x: Byte, n: nat): (s: seq<Byte>)
    ensures |s| == n && forall i | 0 <= i < n :: s[i] == x
  {
    seq(n, _ => x)
  }

  lemma WrapsToFront(memory: seq<Byte>, bytes: seq<Byte>, left: seq<Byte>)
    requires 7 + MAX_CAPACITY <= |memory| && |bytes| == MAX_CAPACITY && memory[1] != bytes[65530]
    requires left == AfterConsume(memory, 7, MAX_CAPACITY, 65530)
    ensures left == memory[1..6] && left != bytes[65530..]
  {
    TruncatedOnce(7 + 65530);
    assert left[0] == memory[1] && bytes[65530..][0] == bytes[65530];
  }
}
