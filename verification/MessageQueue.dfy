/**
 The message queue object. Each method body between lock and unlock is one critical section of the queue system;
 `Send` and `Receive` are whole calls that no other thread interrupts.
 */
module MessageQueue {
  import opened Bytes
  import opened Ring

  /** `Waits`: the call does not return, it blocks on its semaphore. */
  datatype QueueRc = Success | Failed | WrongParam | Waits

  const NO_WAIT: nat := 0
  const WAIT_FOREVER: nat := 0xFFFF_FFFF

  /** `memcpy` between two buffers. */
  method CopyBytes(to: array<byte>, at: nat, from: array<byte>, start: nat, n: nat)
    requires at + n <= to.Length && start + n <= from.Length && to != from
    modifies to
    ensures to[..] == old(to[..at]) + from[start..start + n] + old(to[at + n..])
  {
    for k := 0 to n
      invariant to[..at] == old(to[..at]) && to[at..at + k] == from[start..start + k]
      invariant to[at + k..] == old(to[at + k..])
    {
      ghost var was := to[at + k..];
      to[at + k] := from[start + k];
      assert to[at..at + k + 1] == to[at..at + k] + [from[start + k]];
      assert from[start..start + k + 1] == from[start..start + k] + [from[start + k]];
      assert to[at + k + 1..] == was[1..];
    }
    assert to[..] == to[..at] + to[at..at + n] + to[at + n..];
  }

  /** `memcpy` of a message over a slot. */
  method CopyMessage(buf: array<byte>, at: nat, size: nat, message: array<byte>, n: nat)
    requires at + size <= buf.Length && n <= size && n <= message.Length && message != buf
    modifies buf
    ensures buf[..] == old(buf[..at]) + Overlay(old(buf[at..at + size]), message[..n]) + old(buf[at + size..])
  {
    ghost var was := buf[..];
    CopyBytes(buf, at, message, 0, n);
    Overlaid(was, at, size, message[..n]);
    assert was[..at] == old(buf[..at]) && was[at..at + size] == old(buf[at..at + size]);
    assert was[at + size..] == old(buf[at + size..]) && was[at + n..] == old(buf[at + n..]);
  }

  lemma Overlaid(b: seq<byte>, at: nat, size: nat, data: seq<byte>)
    requires at + size <= |b| && |data| <= size
    ensures b[..at] + data + b[at + |data|..] == b[..at] + Overlay(b[at..at + size], data) + b[at + size..]
  {
    var n := |data|;
    assert b[at + n..] == b[at..at + size][n..] + b[at + size..];
    assert Overlay(b[at..at + size], data) == data + b[at..at + size][n..];
  }

  class Queue {
    const maxSize: nat
    const msgSize: nat
    const buf: array<byte>
    var msgNum: int
    var head: int
    var tail: int
    var txSema: nat
    var rxSema: nat

    ghost function View(): Ring
      reads this, buf
    {
      Ring(maxSize, msgSize, msgNum, head, tail, buf[..])
    }

    /** `RobotMessageQueueCreate`. */
    constructor (queueSize: nat, messageSize: nat)
      requires queueSize > 0 && messageSize > 0
      ensures View() == Ring(queueSize, messageSize, 0, 0, 0, Zeros(queueSize * messageSize)) && View().Valid()
      ensures txSema == queueSize && rxSema == 0 && fresh(buf)
    {
      NotNegative(queueSize, messageSize);
      maxSize, msgSize, msgNum, head, tail := queueSize, messageSize, 0, 0, 0;
      buf := new byte[queueSize * messageSize](_ => 0);
      txSema, rxSema := queueSize, 0;
      new;
      assert buf[..] == Zeros(queueSize * messageSize);
      AtSlotAt(0, maxSize, msgSize);
    }

    /** `RobotMessageQueueGetNumMsgs`. */
    method GetNumMsgs() returns (n: int)
      ensures n == View().msgNum
    {
      n := msgNum;
    }

    /** `RobotMessagePeek`: nothing but the receiver's buffer changes, and on failure not even that. */
    method Peek(message: array<byte>, size: nat, offset: nat) returns (rc: QueueRc)
      requires View().Valid() && message != buf && Min(size, msgSize) <= message.Length
      modifies message
      ensures match Peeked(View(), size, offset)
        case None => rc == Failed && message[..] == old(message[..])
        case Some(bytes) => rc == Success && message[..] == bytes + old(message[Min(size, msgSize)..])
    {
      if msgNum == 0 || msgNum - 1 < offset {
        return Failed;
      }
      PeekInside(View(), offset);
      var msgToRead := (head + offset * msgSize) % buf.Length;
      CopyBytes(message, 0, buf, msgToRead, Min(size, msgSize));
      rc := Success;
    }

    /** The critical section of `RobotMessageReceive`. */
    method ReceiveSection(message: array<byte>, size: nat)
      requires View().Valid() && message != buf && Min(size, msgSize) <= message.Length
      modifies `head, `msgNum, message
      ensures View() == Taken(old(View()))
      ensures message[..] == Front(old(View()), size) + old(message[Min(size, msgSize)..])
    {
      CursorInside(View(), head);
      CopyBytes(message, 0, buf, head, Min(size, msgSize));
      head := head + msgSize;
      head := head % buf.Length;
      msgNum := msgNum - 1;
    }

    /** The critical section of `RobotMessageSend`. */
    method SendSection(message: array<byte>, size: nat)
      requires View().Valid() && message != buf && Min(size, msgSize) <= message.Length
      modifies `tail, `msgNum, buf
      ensures View() == Put(old(View()), message[..Min(size, msgSize)])
    {
      CursorInside(View(), tail);
      CopyMessage(buf, tail, msgSize, message, Min(size, msgSize));
      tail := tail + msgSize;
      tail := tail % buf.Length;
      msgNum := msgNum + 1;
    }

    /** `RobotMessageReceive` from beginning to end. */
    method Receive(message: array<byte>, size: nat, wait: nat) returns (rc: QueueRc)
      requires View().Valid() && message != buf && Min(size, msgSize) <= message.Length
      modifies `head, `msgNum, `txSema, `rxSema, message
      ensures rc == if wait != WAIT_FOREVER && wait != NO_WAIT then WrongParam
                    else if old(rxSema) > 0 then Success
                    else if wait == WAIT_FOREVER then Waits
                    else Failed
      ensures if rc == Success then
                && View() == Taken(old(View())) && rxSema == old(rxSema) - 1 && txSema == old(txSema) + 1
                && message[..] == Front(old(View()), size) + old(message[Min(size, msgSize)..])
              else
                && View() == old(View()) && rxSema == old(rxSema) && txSema == old(txSema)
                && message[..] == old(message[..])
    {
      if wait != WAIT_FOREVER && wait != NO_WAIT {
        return WrongParam;
      }
      if rxSema == 0 {
        return if wait == WAIT_FOREVER then Waits else Failed;
      }
      rxSema := rxSema - 1;
      ReceiveSection(message, size);
      txSema := txSema + 1;
      rc := Success;
    }

    /** `RobotMessageSend` from beginning to end. */
    method Send(message: array<byte>, size: nat, wait: nat) returns (rc: QueueRc)
      requires View().Valid() && message != buf && Min(size, msgSize) <= message.Length
      modifies `tail, `msgNum, `txSema, `rxSema, buf
      ensures rc == if wait != WAIT_FOREVER && wait != NO_WAIT then WrongParam
                    else if old(txSema) > 0 then Success
                    else if wait == WAIT_FOREVER then Waits
                    else Failed
      ensures if rc == Success then
                && View() == Put(old(View()), message[..Min(size, msgSize)])
                && txSema == old(txSema) - 1 && rxSema == old(rxSema) + 1
              else
                View() == old(View()) && rxSema == old(rxSema) && txSema == old(txSema)
    {
      if wait != WAIT_FOREVER && wait != NO_WAIT {
        return WrongParam;
      }
      if txSema == 0 {
        return if wait == WAIT_FOREVER then Waits else Failed;
      }
      txSema := txSema - 1;
      SendSection(message, size);
      rxSema := rxSema + 1;
      rc := Success;
    }
  }
}
