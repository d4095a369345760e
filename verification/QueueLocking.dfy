/**
 The same queue with the mutex and the inside of the critical sections in view: a section is entered when the mutex
 is free, and copying, moving the cursor, wrapping it and counting are steps of their own. Nothing is lost by taking
 a section as one step: every run here is a run of the queue system.
 */
module QueueLocking {
  import opened Bytes
  import opened Ring
  import opened QueueSystem

  /** How far the owner of the mutex is; `Looking` is a peek or a count, which only read. */
  datatype Stage = Looking | Entered | Copied | Moved | Wrapped | Counted

  datatype Lock = Open | Held(owner: nat, stage: Stage)

  /** `copied` is what a receive has copied out; `before` records the ring when the mutex was taken. */
  datatype Locked = Locked(
    ring: Ring,
    tx: int,
    rx: int,
    threads: seq<Thread>,
    sent: seq<seq<byte>>,
    received: seq<Delivery>,
    lock: Lock,
    copied: seq<byte>,
    before: Ring)

  // ---------- steps outside the sections ----------

  /** A call begins, a semaphore is waited for or posted: the steps that do not need the mutex. */
  ghost predicate Outside(f: Locked, f': Locked, i: nat)
    requires i < |f.threads|
  {
    var t := f.threads[i];
    && (f.lock.Held? ==> f.lock.owner != i)
    && match t
       case Idle =>
         exists u: Thread :: (u.WantSend? || u.WantReceive?) && f' == f.(threads := f.threads[i := u])
       case WantSend(data, block) =>
         if f.tx > 0 then f' == f.(tx := f.tx - 1, threads := f.threads[i := Sending(data)])
         else !block && f' == f.(threads := f.threads[i := Idle])
       case Posting => f' == f.(rx := f.rx + 1, threads := f.threads[i := Idle])
       case WantReceive(size, block) =>
         if f.rx > 0 then f' == f.(rx := f.rx - 1, threads := f.threads[i := Receiving(size)])
         else !block && f' == f.(threads := f.threads[i := Idle])
       case Releasing => f' == f.(tx := f.tx + 1, threads := f.threads[i := Idle])
       case _ => false
  }

  /** `pthread_mutex_lock`. */
  ghost predicate Enters(f: Locked, f': Locked, i: nat)
    requires i < |f.threads|
  {
    && f.lock.Open?
    && match f.threads[i]
       case Sending(_) => f' == f.(lock := Held(i, Entered), before := f.ring)
       case Receiving(_) => f' == f.(lock := Held(i, Entered), before := f.ring)
       case Idle => f' == f.(lock := Held(i, Looking), before := f.ring)
       case _ => false
  }

  // ---------- steps inside a section ----------

  predicate InBuffer(r: Ring, at: int) {
    0 <= at && at + r.msgSize <= |r.buf|
  }

  /** The next step of a send that has the mutex; `Moved` is a cursor that may stand at the end of the buffer. */
  function SendStep(r: Ring, stage: Stage, data: seq<byte>): Ring
    requires stage == Entered ==> InBuffer(r, r.tail)
    requires stage == Moved ==> |r.buf| > 0
  {
    match stage
    case Entered =>
      r.(buf := r.buf[..r.tail] + Overlay(r.buf[r.tail..r.tail + r.msgSize], data) + r.buf[r.tail + r.msgSize..])
    case Copied => r.(tail := r.tail + r.msgSize)
    case Moved => r.(tail := r.tail % |r.buf|)
    case Wrapped => r.(msgNum := r.msgNum + 1)
    case _ => r
  }

  function ReceiveStep(r: Ring, stage: Stage): Ring
    requires stage == Moved ==> |r.buf| > 0
  {
    match stage
    case Copied => r.(head := r.head + r.msgSize)
    case Moved => r.(head := r.head % |r.buf|)
    case Wrapped => r.(msgNum := r.msgNum - 1)
    case _ => r
  }

  function NextStage(stage: Stage): Stage {
    match stage
    case Entered => Copied
    case Copied => Moved
    case Moved => Wrapped
    case Wrapped => Counted
    case _ => stage
  }

  /** One step of the owner of the mutex, up to and including `pthread_mutex_unlock`. */
  ghost predicate Inside(f: Locked, f': Locked, i: nat)
    requires i < |f.threads|
  {
    && f.lock.Held? && f.lock.owner == i
    && var stage := f.lock.stage;
       var on := f.(lock := Held(i, NextStage(stage)));
       match f.threads[i]
       case Idle => stage == Looking && f' == f.(lock := Open)
       case Sending(data) =>
         if stage == Counted then
           f' == f.(lock := Open, sent := f.sent + [data], threads := f.threads[i := Posting])
         else
           && (stage == Entered ==> InBuffer(f.ring, f.ring.tail)) && (stage == Moved ==> |f.ring.buf| > 0)
           && f' == on.(ring := SendStep(f.ring, stage, data))
       case Receiving(size) =>
         if stage == Counted then
           f' == f.(lock := Open, received := f.received + [Delivery(size, f.copied)],
                    threads := f.threads[i := Releasing])
         else if stage == Entered then
           && InBuffer(f.ring, f.ring.head)
           && f' == on.(copied := f.ring.buf[f.ring.head..f.ring.head + Min(size, f.ring.msgSize)])
         else
           && (stage == Moved ==> |f.ring.buf| > 0)
           && f' == on.(ring := ReceiveStep(f.ring, stage))
       case _ => false
  }

  ghost predicate LockedNext(f: Locked, f': Locked) {
    exists i: nat :: i < |f.threads| && (Outside(f, f', i) || Enters(f, f', i) || Inside(f, f', i))
  }

  ghost predicate LockedRun(fs: seq<Locked>) {
    && fs != [] && fs[0].lock.Open? && Init(Seen(fs[0]))
    && forall k | 0 <= k < |fs| - 1 :: LockedNext(fs[k], fs[k + 1])
  }

  // ---------- what the queue system sees ----------

  /** While a section runs, the queue is still as it was when the mutex was taken. */
  ghost function Seen(f: Locked): State {
    State(if f.lock.Held? then f.before else f.ring, f.tx, f.rx, f.threads, f.sent, f.received)
  }

  /** A section that has come to this stage has done this much to the ring. */
  ghost function SendSoFar(r: Ring, stage: Stage, data: seq<byte>): Ring
    requires r.Valid()
  {
    CursorInside(r, r.tail);
    var done := Put(r, data);
    match stage
    case Entered => r
    case Looking => r
    case Copied => r.(buf := done.buf)
    case Moved => r.(buf := done.buf, tail := r.tail + r.msgSize)
    case Wrapped => r.(buf := done.buf, tail := done.tail)
    case Counted => done
  }

  ghost function ReceiveSoFar(r: Ring, stage: Stage): Ring
    requires r.Valid()
  {
    var done := Taken(r);
    match stage
    case Moved => r.(head := r.head + r.msgSize)
    case Wrapped => r.(head := done.head)
    case Counted => done
    case _ => r
  }

  /** The owner of the mutex is where its stage says, and nobody else has touched the ring. */
  ghost predicate LockInv(f: Locked) {
    f.lock.Held? ==>
      && f.lock.owner < |f.threads| && f.before.Valid()
      && match f.threads[f.lock.owner]
         case Idle => f.lock.stage == Looking && f.ring == f.before
         case Sending(data) => f.lock.stage != Looking && f.ring == SendSoFar(f.before, f.lock.stage, data)
         case Receiving(size) =>
           && f.lock.stage != Looking && f.ring == ReceiveSoFar(f.before, f.lock.stage)
           && (f.lock.stage != Entered ==> f.copied == Front(f.before, size))
         case _ => false
  }

  /** Every step is none at all to the queue system, or one of its steps. */
  lemma Simulates(f: Locked, f': Locked)
    requires LockInv(f) && Inv(Seen(f)) && LockedNext(f, f')
    ensures LockInv(f') && (Seen(f') == Seen(f) || Next(Seen(f), Seen(f')))
  {
    var i: nat :| i < |f.threads| && (Outside(f, f', i) || Enters(f, f', i) || Inside(f, f', i));
    if Outside(f, f', i) {
      OutsideSimulates(f, f', i);
    } else if Enters(f, f', i) {
      assert Seen(f').ring == Seen(f).ring;
    } else {
      InsideSimulates(f, f', i);
    }
  }

  lemma OutsideSimulates(f: Locked, f': Locked, i: nat)
    requires LockInv(f) && Inv(Seen(f)) && i < |f.threads| && Outside(f, f', i)
    ensures LockInv(f') && Next(Seen(f), Seen(f'))
  {
    if f.threads[i].Idle? {
      assert Calls(Seen(f), Seen(f'), i);
    } else {
      assert Steps(Seen(f), Seen(f'), i);
    }
  }

  lemma InsideSimulates(f: Locked, f': Locked, i: nat)
    requires LockInv(f) && Inv(Seen(f)) && i < |f.threads| && Inside(f, f', i)
    ensures LockInv(f') && (Seen(f') == Seen(f) || Next(Seen(f), Seen(f')))
  {
    hide Inv;
    if f.lock.stage == Counted {
      assert f.ring == Go(Seen(f), i).ring;
      assert Steps(Seen(f), Seen(f'), i);
    } else if f.threads[i].Sending? {
      SendKeeps(f, f', i);
    } else if f.threads[i].Receiving? {
      ReceiveKeeps(f, f', i);
    }
  }

  lemma SendKeeps(f: Locked, f': Locked, i: nat)
    requires LockInv(f) && i < |f.threads| && Inside(f, f', i) && f.lock.stage != Counted && f.threads[i].Sending?
    ensures LockInv(f') && Seen(f') == Seen(f)
  {
    hide SendSoFar, SendStep, ReceiveSoFar, ReceiveStep, InBuffer, Overlay, Front;
    SendOneMore(f.before, f.lock.stage, f.threads[i].data);
  }

  lemma SendOneMore(r: Ring, stage: Stage, data: seq<byte>)
    requires r.Valid() && stage != Counted
    ensures var now := SendSoFar(r, stage, data);
      && (stage == Entered ==> InBuffer(now, now.tail)) && |now.buf| == |r.buf| > 0
      && SendStep(now, stage, data) == SendSoFar(r, NextStage(stage), data)
  {
    hide Overlay;
    CursorInside(r, r.tail);
  }

  lemma ReceiveKeeps(f: Locked, f': Locked, i: nat)
    requires LockInv(f) && i < |f.threads| && Inside(f, f', i) && f.lock.stage != Counted && f.threads[i].Receiving?
    ensures LockInv(f') && Seen(f') == Seen(f)
  {
    hide SendSoFar, SendStep, ReceiveSoFar, ReceiveStep, Overlay;
    ReceiveOneMore(f.before, f.lock.stage);
  }

  lemma ReceiveOneMore(r: Ring, stage: Stage)
    requires r.Valid() && stage != Counted
    ensures var now := ReceiveSoFar(r, stage);
      && (stage == Entered ==> now == ReceiveSoFar(r, Copied) == r && InBuffer(r, r.head)) && |now.buf| > 0
      && ReceiveStep(now, stage) == ReceiveSoFar(r, NextStage(stage))
  {
    CursorInside(r, r.head);
  }

  /** The run of the queue system behind a run with the mutex: it ends in the same state, seen from outside. */
  lemma {:induction false} SeenRun(fs: seq<Locked>) returns (states: seq<State>)
    requires LockedRun(fs)
    ensures Run(states) && states[|states| - 1] == Seen(fs[|fs| - 1]) && LockInv(fs[|fs| - 1])
  {
    var n := |fs| - 1;
    if n == 0 {
      states := [Seen(fs[0])];
    } else {
      states := SeenRun(fs[..n]);
      RunInv(states, |states| - 1);
      LastStep(fs);
      Simulates(fs[n - 1], fs[n]);
      if Seen(fs[n]) != Seen(fs[n - 1]) {
        Longer(states, Seen(fs[n]));
        states := states + [Seen(fs[n])];
      }
    }
  }

  lemma LastStep(fs: seq<Locked>)
    requires LockedRun(fs) && |fs| > 1
    ensures LockedRun(fs[..|fs| - 1]) && LockedNext(fs[|fs| - 2], fs[|fs| - 1])
  {
    var n := |fs| - 2;
    assert LockedNext(fs[n], fs[n + 1]);
  }

  lemma Longer(states: seq<State>, s: State)
    requires Run(states) && Next(states[|states| - 1], s)
    ensures Run(states + [s])
  {
    var more := states + [s];
    forall k | 0 <= k < |more| - 1
      ensures Next(more[k], more[k + 1])
    {
      assert k < |states| - 1 ==> more[k + 1] == states[k + 1];
    }
  }

  // ---------- consequences ----------

  /** The FIFO property with the mutex in view. */
  lemma LockedDeliversInOrder(fs: seq<Locked>, j: nat)
    requires LockedRun(fs) && j < |fs[|fs| - 1].received|
    ensures j < |fs[|fs| - 1].sent|
    ensures var f := fs[|fs| - 1];
      var d, sent := f.received[j], f.sent[j];
      && |d.bytes| == Min(d.size, Seen(f).ring.msgSize)
      && forall x: nat | x < |d.bytes| && x < |sent| :: d.bytes[x] == sent[x]
  {
    var states := SeenRun(fs);
    DeliversInOrder(states, |states| - 1, j);
  }

  /** The copy of a send goes to a slot inside the buffer that holds no message still to be received. */
  lemma CopiesIntoFreeSlot(fs: seq<Locked>, i: nat)
    requires LockedRun(fs)
    requires var f := fs[|fs| - 1];
      i < |f.threads| && f.threads[i].Sending? && f.lock == Held(i, Entered)
    ensures var f := fs[|fs| - 1];
      && f.ring.Valid() && InBuffer(f.ring, f.ring.tail) && f.ring.msgNum < f.ring.maxSize
      && forall m: nat | |f.received| <= m < |f.sent| ::
           m % f.ring.maxSize != f.ring.tail / f.ring.msgSize
  {
    var states := SeenRun(fs);
    var f, k := fs[|fs| - 1], |states| - 1;
    SectionsAreSafe(states, k, i);
    RunInv(states, k);
    CursorInside(f.ring, f.ring.tail);
    SlotIndex(|f.sent| % f.ring.maxSize, f.ring.msgSize);
    forall m: nat | |f.received| <= m < |f.sent|
      ensures m % f.ring.maxSize != f.ring.tail / f.ring.msgSize
    {
      Together(m, |f.sent|, f.ring.maxSize);
    }
  }

  /** A step that is not the beginning of a call. */
  ghost predicate Goes(f: Locked, f': Locked, i: nat)
    requires i < |f.threads|
  {
    Inside(f, f', i) || (!f.threads[i].Idle? && (Outside(f, f', i) || Enters(f, f', i)))
  }

  /** The owner of the mutex can always take its next step, so a section that is entered is left. */
  lemma OwnerCanGo(f: Locked) returns (f': Locked)
    requires LockInv(f) && f.lock.Held?
    ensures Goes(f, f', f.lock.owner)
  {
    var i, stage := f.lock.owner, f.lock.stage;
    match f.threads[i]
    case Idle => f' := f.(lock := Open);
    case Sending(data) => f' := SenderCanGo(f, data);
    case Receiving(size) => f' := ReceiverCanGo(f, size);
  }

  lemma SenderCanGo(f: Locked, data: seq<byte>) returns (f': Locked)
    requires LockInv(f) && f.lock.Held? && f.threads[f.lock.owner] == Sending(data)
    ensures Inside(f, f', f.lock.owner)
  {
    hide SendSoFar, SendStep, ReceiveSoFar, ReceiveStep, InBuffer, Overlay, Front;
    var i, stage := f.lock.owner, f.lock.stage;
    if stage == Counted {
      f' := f.(lock := Open, sent := f.sent + [data], threads := f.threads[i := Posting]);
    } else {
      SendOneMore(f.before, stage, data);
      f' := f.(lock := Held(i, NextStage(stage)), ring := SendStep(f.ring, stage, data));
    }
  }

  lemma ReceiverCanGo(f: Locked, size: nat) returns (f': Locked)
    requires LockInv(f) && f.lock.Held? && f.threads[f.lock.owner] == Receiving(size)
    ensures Inside(f, f', f.lock.owner)
  {
    hide SendSoFar, SendStep, ReceiveSoFar, ReceiveStep, Overlay, Front;
    var i, stage := f.lock.owner, f.lock.stage;
    var on := f.(lock := Held(i, NextStage(stage)));
    if stage == Counted {
      f' := f.(lock := Open, received := f.received + [Delivery(size, f.copied)], threads := f.threads[i := Releasing]);
    } else {
      ReceiveOneMore(f.before, stage);
      f' := if stage == Entered then on.(copied := f.ring.buf[f.ring.head..f.ring.head + Min(size, f.ring.msgSize)])
        else on.(ring := ReceiveStep(f.ring, stage));
    }
  }

  /** Progress with the mutex in view: when a sender and a receiver wait, some thread can take a step of its call. */
  lemma SomeoneGoes(fs: seq<Locked>, i: nat, j: nat) returns (f': Locked, t: nat)
    requires LockedRun(fs)
    requires var f := fs[|fs| - 1];
      i < |f.threads| && j < |f.threads| && f.threads[i].WantSend? && f.threads[j].WantReceive?
    ensures t < |fs[|fs| - 1].threads| && Goes(fs[|fs| - 1], f', t)
  {
    hide Run, LockedNext, Init, Outside, Inside, Enters;
    var states := SeenRun(fs);
    var f := fs[|fs| - 1];
    if f.lock.Held? {
      f' := OwnerCanGo(f);
      t := f.lock.owner;
      assert t < |f.threads|;
    } else {
      SomeoneCanGo(states, |states| - 1, i, j);
      t :| t < |f.threads| && CanGo(Seen(f), t);
      f' := FreeStep(f, t);
    }
  }

  lemma FreeStep(f: Locked, t: nat) returns (f': Locked)
    requires f.lock.Open? && t < |f.threads| && CanGo(Seen(f), t)
    ensures Goes(f, f', t)
  {
    match f.threads[t]
    case WantSend(data, _) =>
      f' := if f.tx > 0 then f.(tx := f.tx - 1, threads := f.threads[t := Sending(data)])
        else f.(threads := f.threads[t := Idle]);
    case WantReceive(size, _) =>
      f' := if f.rx > 0 then f.(rx := f.rx - 1, threads := f.threads[t := Receiving(size)])
        else f.(threads := f.threads[t := Idle]);
    case Posting => f' := f.(rx := f.rx + 1, threads := f.threads[t := Idle]);
    case Releasing => f' := f.(tx := f.tx + 1, threads := f.threads[t := Idle]);
    case _ => f' := f.(lock := Held(t, Entered), before := f.ring);
  }
}
