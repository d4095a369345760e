/** The byte ring of a message queue, and what its critical sections do to it. */
module Ring {
  import opened Options

  import opened Bytes

  /** The fields that the mutex protects. */
  datatype Ring = Ring(maxSize: nat, msgSize: nat, msgNum: int, head: int, tail: int, buf: seq<byte>) {

    /** The buffer is a row of `maxSize` slots, and the two cursors stand at the start of a slot. */
    ghost predicate Valid() {
      && maxSize > 0 && msgSize > 0 && |buf| == maxSize * msgSize
      && AtSlot(head, maxSize, msgSize) && AtSlot(tail, maxSize, msgSize)
    }
  }

  function Min(a: nat, b: nat): nat {
    if a < b then a else b
  }

  ghost predicate AtSlot(at: int, maxSize: nat, msgSize: nat)
    requires msgSize > 0
  {
    at == at / msgSize * msgSize && 0 <= at / msgSize < maxSize
  }

  // ---------- arithmetic of slots ----------

  lemma SlotInside(i: nat, maxSize: nat, msgSize: nat)
    requires i < maxSize
    ensures 0 <= i * msgSize && i * msgSize + msgSize <= maxSize * msgSize
  {
    var rest: nat := maxSize - 1 - i;
    NotNegative(rest, msgSize);
    NotNegative(i, msgSize);
    assert maxSize == i + 1 + rest;
    Distribute(i + 1, rest, msgSize);
    Distribute(i, 1, msgSize);
  }

  lemma SlotsApart(i: nat, j: nat, msgSize: nat)
    requires i < j
    ensures i * msgSize + msgSize <= j * msgSize
  {
    var rest: nat := j - 1 - i;
    NotNegative(rest, msgSize);
    assert j == i + 1 + rest;
    Distribute(i + 1, rest, msgSize);
    Distribute(i, 1, msgSize);
  }

  lemma SlotIndex(i: nat, msgSize: nat)
    requires msgSize > 0
    ensures i * msgSize / msgSize == i
  {
    DivMod(i * msgSize, i, 0, msgSize);
  }

  /** Byte positions wrap at the buffer size as slot numbers wrap at the number of slots. */
  lemma Wraps(a: nat, maxSize: nat, msgSize: nat)
    requires maxSize > 0 && msgSize > 0
    ensures maxSize * msgSize > 0 && a * msgSize % (maxSize * msgSize) == a % maxSize * msgSize
  {
    var q, r := a / maxSize, a % maxSize;
    assert a == q * maxSize + r;
    SlotInside(r, maxSize, msgSize);
    Distribute(q * maxSize, r, msgSize);
    Regrouped(q, maxSize, msgSize);
    DivMod(a * msgSize, q, r * msgSize, maxSize * msgSize);
  }

  lemma Regrouped(q: int, maxSize: int, msgSize: int)
    ensures q * maxSize * msgSize == q * (maxSize * msgSize)
  {
  }

  lemma AtSlotAt(a: nat, maxSize: nat, msgSize: nat)
    requires maxSize > 0 && msgSize > 0
    ensures AtSlot(a % maxSize * msgSize, maxSize, msgSize)
  {
    SlotIndex(a % maxSize, msgSize);
  }

  /** The slot a number of steps further round. */
  lemma SlotAfter(a: nat, k: nat, maxSize: nat, msgSize: nat)
    requires maxSize > 0 && msgSize > 0
    ensures maxSize * msgSize > 0
    ensures (a % maxSize * msgSize + k * msgSize) % (maxSize * msgSize) == (a + k) % maxSize * msgSize
  {
    Distribute(a % maxSize, k, msgSize);
    Wraps(a % maxSize + k, maxSize, msgSize);
    var q, r := (a % maxSize + k) / maxSize, (a % maxSize + k) % maxSize;
    var b := a / maxSize;
    assert a == b * maxSize + a % maxSize && a % maxSize + k == q * maxSize + r;
    Distribute(b, q, maxSize);
    DivMod(a + k, b + q, r, maxSize);
  }

  // ---------- the critical sections ----------

  /** `memcpy` of a message over a slot: a shorter message leaves the end of the slot as it was. */
  function Overlay(slot: seq<byte>, data: seq<byte>): (r: seq<byte>)
    ensures |r| == |slot|
    ensures forall k | 0 <= k < |slot| :: r[k] == if k < |data| then data[k] else slot[k]
  {
    var m := Min(|data|, |slot|);
    data[..m] + slot[m..]
  }

  ghost function Slot(r: Ring, i: nat): (s: seq<byte>)
    requires r.Valid() && i < r.maxSize
    ensures |s| == r.msgSize
  {
    SlotInside(i, r.maxSize, r.msgSize);
    r.buf[i * r.msgSize..i * r.msgSize + r.msgSize]
  }

  lemma CursorInside(r: Ring, at: int)
    requires r.Valid() && AtSlot(at, r.maxSize, r.msgSize)
    ensures 0 <= at && at + r.msgSize <= |r.buf| && |r.buf| > 0
  {
    SlotInside(at / r.msgSize, r.maxSize, r.msgSize);
  }

  /** The section of a send. */
  function Put(r: Ring, data: seq<byte>): Ring
    requires r.Valid()
  {
    CursorInside(r, r.tail);
    var buf := r.buf[..r.tail] + Overlay(r.buf[r.tail..r.tail + r.msgSize], data) + r.buf[r.tail + r.msgSize..];
    r.(buf := buf, tail := (r.tail + r.msgSize) % |r.buf|, msgNum := r.msgNum + 1)
  }

  /** What a receive copies out. */
  function Front(r: Ring, size: nat): seq<byte>
    requires r.Valid()
  {
    CursorInside(r, r.head);
    r.buf[r.head..r.head + Min(size, r.msgSize)]
  }

  /** What a receive does to the ring. */
  function Taken(r: Ring): Ring
    requires r.Valid()
  {
    CursorInside(r, r.head);
    r.(head := (r.head + r.msgSize) % |r.buf|, msgNum := r.msgNum - 1)
  }

  /** What a peek copies out. */
  function Peeked(r: Ring, size: nat, offset: nat): Option<seq<byte>>
    requires r.Valid()
  {
    if r.msgNum == 0 || r.msgNum - 1 < offset then None
    else
      PeekInside(r, offset);
      var at := (r.head + offset * r.msgSize) % |r.buf|;
      Some(r.buf[at..at + Min(size, r.msgSize)])
  }

  lemma PeekInside(r: Ring, offset: nat)
    requires r.Valid()
    ensures var i := (r.head / r.msgSize + offset) % r.maxSize;
      |r.buf| > 0 && (r.head + offset * r.msgSize) % |r.buf| == i * r.msgSize && i * r.msgSize + r.msgSize <= |r.buf|
  {
    SlotFurther(r.head / r.msgSize, offset, r.maxSize, r.msgSize);
  }

  /** The same on numbers: the slot `offset` places behind slot `a`. */
  lemma SlotFurther(a: nat, offset: nat, maxSize: nat, msgSize: nat)
    requires a < maxSize && msgSize > 0
    ensures var i, size := (a + offset) % maxSize, maxSize * msgSize;
      size > 0 && (a * msgSize + offset * msgSize) % size == i * msgSize && i * msgSize + msgSize <= size
  {
    DivMod(a, 0, a, maxSize);
    SlotAfter(a, offset, maxSize, msgSize);
    SlotInside((a + offset) % maxSize, maxSize, msgSize);
  }

  lemma PutValid(r: Ring, data: seq<byte>)
    requires r.Valid()
    ensures Put(r, data).Valid()
  {
    CursorInside(r, r.tail);
    PeekInside(r.(head := r.tail), 1);
    AtSlotAt(r.tail / r.msgSize + 1, r.maxSize, r.msgSize);
  }

  lemma TakenValid(r: Ring)
    requires r.Valid()
    ensures Taken(r).Valid()
  {
    PeekInside(r, 1);
    AtSlotAt(r.head / r.msgSize + 1, r.maxSize, r.msgSize);
  }

  /** A part of a row that is written over is the new part, and what is beside it stays. */
  lemma WrittenOver(b: seq<byte>, t: nat, m: seq<byte>, at: nat)
    requires t + |m| <= |b| && at + |m| <= |b|
    ensures var c := b[..t] + m + b[t + |m|..];
      |c| == |b| && c[t..t + |m|] == m
      && (at + |m| <= t || t + |m| <= at ==> c[at..at + |m|] == b[at..at + |m|])
  {
  }

  /** A send writes the slot at the tail and no other. */
  lemma PutSlots(r: Ring, data: seq<byte>, i: nat)
    requires r.Valid() && i < r.maxSize
    ensures Put(r, data).Valid()
    ensures Slot(Put(r, data), i) == if i == r.tail / r.msgSize then Overlay(Slot(r, i), data) else Slot(r, i)
  {
    hide Overlay;
    PutValid(r, data);
    CursorInside(r, r.tail);
    SlotInside(i, r.maxSize, r.msgSize);
    var j := r.tail / r.msgSize;
    WrittenOver(r.buf, r.tail, Overlay(r.buf[r.tail..r.tail + r.msgSize], data), i * r.msgSize);
    if i < j {
      SlotsApart(i, j, r.msgSize);
    } else if j < i {
      SlotsApart(j, i, r.msgSize);
    }
  }
}
