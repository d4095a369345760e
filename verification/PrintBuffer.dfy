/** The `printbuffer`: a text that grows in a block of its own, which is replaced by a larger one when it is full. */
module PrintBuffer {
  import opened CText
  import opened Nodes
  import opened PowerOfTwo

  class Buffer {
    var buffer: array?<char>
    var length: int
    var offset: int

    constructor ()
      ensures buffer == null && length == 0 && offset == 0
    {
      buffer, length, offset := null, 0, 0;
    }

    ghost predicate Valid()
      reads this
    {
      buffer != null ==> length == buffer.Length && 0 <= offset <= length
    }
  }

  ghost function Block(a: array?<char>): set<object> {
    if a == null then {} else {a}
  }

  /** The text before the offset. */
  ghost function Done(p: Buffer): string
    requires p.buffer != null && p.Valid()
    reads p, p.buffer
  {
    p.buffer[..p.offset]
  }

  /** What a step on the buffer does to the allocator: at most, it exchanges the block of the buffer. */
  ghost predicate Kept(now: array?<char>, before: array?<char>, live: set<object>, live0: set<object>) {
    live == live0 - Block(before) + Block(now)
  }

  /**
   `ensure`: room for `needed` bytes from the offset on. Everything in the buffer is kept when the block is
   exchanged. When there is no memory, the block is freed and the buffer is gone. A size above 2^30 does not fit
   the `int` that `pow2gt` computes in, and the allocation of it fails.
   */
  method Ensure(p: Buffer, needed: nat, h: Heap) returns (ok: bool)
    requires p.Valid() && needed > 0 && Block(p.buffer) <= h.live
    modifies p`buffer, p`length, h
    ensures p.Valid() && Kept(p.buffer, old(p.buffer), h.live, old(h.live))
    ensures ok <==> p.buffer != null
    ensures old(p.buffer) == null ==> p.buffer == null
    ensures !ok && old(p.buffer) != null ==> h.failures > old(h.failures)
    ensures ok ==>
      && old(p.buffer) != null && p.offset + needed <= p.length && old(p.length) <= p.length
      && p.buffer[..old(p.length)] == old(p.buffer[..])
      && (p.buffer == old(p.buffer) || fresh(p.buffer)) && h.failures == old(h.failures)
    ensures old(h.failures) <= h.failures
  {
    if p.buffer == null {
      return false;
    }
    var total := needed + p.offset;
    if total <= p.length {
      return true;
    }
    var newbuffer: array?<char> := null;
    if total <= 0x4000_0000 {
      var newsize := Pow2gt(total);
      ghost var k := Pow2gtRoundsUp(total);
      newbuffer := h.Malloc(newsize);
    } else {
      h.Refuse();
    }
    if newbuffer == null {
      h.Free(p.buffer);
      p.length, p.buffer := 0, null;
      return false;
    }
    CopyTo(newbuffer, 0, p.buffer, p.length);
    assert newbuffer[..p.length] == p.buffer[..p.length];
    h.Free(p.buffer);
    p.length, p.buffer := newbuffer.Length, newbuffer;
    return true;
  }

  /** A text and its NUL from a place on. */
  ghost predicate TextAt(a: array<char>, at: int, s: string)
    reads a
  {
    0 <= at && at + |s| < a.Length && a[at..at + |s|] == s && a[at + |s|] == '\0'
  }

  /** `update`: the offset moves to the NUL of the text in the buffer. */
  method Update(p: Buffer, ghost start: int, ghost s: string)
    requires p.Valid()
    requires p.buffer != null ==> TextAt(p.buffer, start, s) && NulFree(s) && start <= p.offset <= start + |s|
    modifies p`offset
    ensures p.Valid() && (p.buffer != null ==> p.offset == start + |s|)
  {
    if p.buffer == null {
      p.offset := 0;
      return;
    }
    var str := p.offset;
    while p.buffer[str] != '\0'
      invariant p.offset <= str <= start + |s| && TextAt(p.buffer, start, s)
      decreases start + |s| - str
    {
      assert str == start + |s| || p.buffer[str] == s[str - start];
      str := str + 1;
    }
    p.offset := str;
  }

  /** `*ptr++ = ...` for the characters of `s` at the offset, where there is room; `nul` also ends the text there. */
  method Write(p: Buffer, at: int, s: string, nul: bool)
    requires p.Valid() && p.buffer != null && 0 <= at && at + |s| + (if nul then 1 else 0) <= p.length
    modifies p.buffer
    ensures p.buffer[..at + |s|] == old(p.buffer[..at]) + s
    ensures nul ==> p.buffer[at + |s|] == '\0'
  {
    var end := PutText(p.buffer, at, s);
    if nul {
      p.buffer[end] := '\0';
    }
  }
}
