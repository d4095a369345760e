/**
 Any number of threads that send to and receive from one message queue. A call is a semaphore wait, a critical
 section under the mutex and a semaphore post; each of these is one step, and the steps of all threads interleave
 in any way.
 */
module QueueSystem {
  import opened Options
  import opened Bytes
  import opened Ring

  /** Where a thread is in its call. `block` tells WAIT_FOREVER from NO_WAIT. */
  datatype Thread =
    | Idle
    | WantSend(data: seq<byte>, block: bool)
    | Sending(data: seq<byte>)
    | Posting
    | WantReceive(size: nat, block: bool)
    | Receiving(size: nat)
    | Releasing

  datatype Delivery = Delivery(size: nat, bytes: seq<byte>)

  /** `sent` and `received` are histories: what the sections put in and copied out, in the order they ran. */
  datatype State = State(
    ring: Ring,
    tx: int,
    rx: int,
    threads: seq<Thread>,
    sent: seq<seq<byte>>,
    received: seq<Delivery>)

  // ---------- steps ----------

  /** Can thread `i` take the next step of its call? Only a blocking wait on a semaphore at zero cannot. */
  predicate CanGo(s: State, i: nat)
    requires i < |s.threads|
  {
    match s.threads[i]
    case Idle => false
    case WantSend(_, block) => s.tx > 0 || !block
    case WantReceive(_, block) => s.rx > 0 || !block
    case _ => true
  }

  function Go(s: State, i: nat): State
    requires i < |s.threads| && CanGo(s, i) && s.ring.Valid()
  {
    match s.threads[i]
    case WantSend(data, _) =>
      if s.tx > 0 then s.(tx := s.tx - 1, threads := s.threads[i := Sending(data)])
      else s.(threads := s.threads[i := Idle])
    case Sending(data) =>
      s.(ring := Put(s.ring, data), sent := s.sent + [data], threads := s.threads[i := Posting])
    case Posting => s.(rx := s.rx + 1, threads := s.threads[i := Idle])
    case WantReceive(size, _) =>
      if s.rx > 0 then s.(rx := s.rx - 1, threads := s.threads[i := Receiving(size)])
      else s.(threads := s.threads[i := Idle])
    case Receiving(size) =>
      s.(ring := Taken(s.ring), received := s.received + [Delivery(size, Front(s.ring, size))],
         threads := s.threads[i := Releasing])
    case Releasing => s.(tx := s.tx + 1, threads := s.threads[i := Idle])
  }

  ghost predicate Calls(s: State, s': State, i: nat) {
    && i < |s.threads| && s.threads[i].Idle?
    && exists t: Thread :: (t.WantSend? || t.WantReceive?) && s' == s.(threads := s.threads[i := t])
  }

  ghost predicate Steps(s: State, s': State, i: nat) {
    i < |s.threads| && CanGo(s, i) && s.ring.Valid() && s' == Go(s, i)
  }

  ghost predicate Next(s: State, s': State) {
    exists i: nat :: Calls(s, s', i) || Steps(s, s', i)
  }

  /** `RobotMessageQueueCreate`, and threads that have not called yet. */
  ghost predicate Init(s: State) {
    && s.ring.maxSize > 0 && s.ring.msgSize > 0
    && s.ring == Ring(s.ring.maxSize, s.ring.msgSize, 0, 0, 0, Zeros(s.ring.maxSize * s.ring.msgSize))
    && s.tx == s.ring.maxSize && s.rx == 0
    && (forall i | 0 <= i < |s.threads| :: s.threads[i].Idle?)
    && s.sent == [] && s.received == []
  }

  ghost predicate Run(states: seq<State>) {
    && states != [] && Init(states[0])
    && forall k | 0 <= k < |states| - 1 :: Next(states[k], states[k + 1])
  }

  // ---------- what the slots hold ----------

  /** The bytes of slot `i` after these sends: every `maxSize`-th message goes to the same slot. */
  function Contents(sent: seq<seq<byte>>, i: nat, maxSize: nat, msgSize: nat): (slot: seq<byte>)
    requires maxSize > 0
    ensures |slot| == msgSize
  {
    if sent == [] then Zeros(msgSize)
    else
      var n := |sent| - 1;
      var before := Contents(sent[..n], i, maxSize, msgSize);
      if n % maxSize == i then Overlay(before, sent[n]) else before
  }

  /** The bytes of the slot of message `k` when it has been sent. */
  function Message(sent: seq<seq<byte>>, k: nat, maxSize: nat, msgSize: nat): (slot: seq<byte>)
    requires maxSize > 0 && k < |sent|
    ensures |slot| == msgSize
  {
    Contents(sent[..k + 1], k % maxSize, maxSize, msgSize)
  }

  // ---------- counting threads ----------

  ghost function Count(ts: seq<Thread>, p: Thread -> bool): nat {
    if ts == [] then 0 else Count(ts[1..], p) + if p(ts[0]) then 1 else 0
  }

  lemma {:induction false} CountUpdate(ts: seq<Thread>, i: nat, t: Thread, p: Thread -> bool)
    requires i < |ts|
    ensures Count(ts[i := t], p) == Count(ts, p) - (if p(ts[i]) then 1 else 0) + (if p(t) then 1 else 0)
  {
    if i == 0 {
      assert ts[0 := t][1..] == ts[1..];
    } else {
      assert ts[i := t][1..] == ts[1..][i - 1 := t];
      CountUpdate(ts[1..], i - 1, t, p);
    }
  }

  lemma {:induction false} CountSome(ts: seq<Thread>, i: nat, p: Thread -> bool)
    requires i < |ts| && p(ts[i])
    ensures Count(ts, p) > 0
  {
    if i > 0 {
      CountSome(ts[1..], i - 1, p);
    }
  }

  lemma {:induction false} CountNone(ts: seq<Thread>, p: Thread -> bool)
    ensures Count(ts, p) == 0 <==> forall i | 0 <= i < |ts| :: !p(ts[i])
  {
    if ts != [] {
      CountNone(ts[1..], p);
      assert forall i | 1 <= i < |ts| :: ts[i] == ts[1..][i - 1];
    }
  }

  ghost function BeforePut(s: State): nat { Count(s.threads, (t: Thread) => t.Sending?) }
  ghost function AfterPut(s: State): nat { Count(s.threads, (t: Thread) => t.Posting?) }
  ghost function BeforeTake(s: State): nat { Count(s.threads, (t: Thread) => t.Receiving?) }
  ghost function AfterTake(s: State): nat { Count(s.threads, (t: Thread) => t.Releasing?) }

  // ---------- the invariant ----------

  /** Every slot is accounted for, and so is every message: in a semaphore or in a thread on its way. */
  ghost predicate Conserved(s: State) {
    && s.tx >= 0 && s.rx >= 0
    && s.tx + BeforePut(s) + s.ring.msgNum + AfterTake(s) == s.ring.maxSize
    && s.ring.msgNum == s.rx + AfterPut(s) + BeforeTake(s)
  }

  /** The cursors and the slots are where the histories put them. */
  ghost predicate Placed(s: State) {
    var max, size := s.ring.maxSize, s.ring.msgSize;
    && s.ring.Valid()
    && s.ring.msgNum == |s.sent| - |s.received|
    && s.ring.head == |s.received| % max * size && s.ring.tail == |s.sent| % max * size
    && (forall i: nat | i < max :: Slot(s.ring, i) == Contents(s.sent, i, max, size))
  }

  /** Delivery `k` is message `k`, as far as the receiver asked for it. */
  ghost predicate Delivered(s: State)
    requires s.ring.maxSize > 0
  {
    && |s.received| <= |s.sent|
    && forall k: nat | k < |s.received| :: s.received[k].bytes
         == Message(s.sent, k, s.ring.maxSize, s.ring.msgSize)[..Min(s.received[k].size, s.ring.msgSize)]
  }

  ghost predicate Inv(s: State) {
    Placed(s) && Conserved(s) && Delivered(s)
  }

  // ---------- the invariant holds in every run ----------

  lemma CountsUpdate(s: State, i: nat, t: Thread)
    requires i < |s.threads|
    ensures var u, s' := s.threads[i], s.(threads := s.threads[i := t]);
      && BeforePut(s') == BeforePut(s) - (if u.Sending? then 1 else 0) + (if t.Sending? then 1 else 0)
      && AfterPut(s') == AfterPut(s) - (if u.Posting? then 1 else 0) + (if t.Posting? then 1 else 0)
      && BeforeTake(s') == BeforeTake(s) - (if u.Receiving? then 1 else 0) + (if t.Receiving? then 1 else 0)
      && AfterTake(s') == AfterTake(s) - (if u.Releasing? then 1 else 0) + (if t.Releasing? then 1 else 0)
  {
    CountUpdate(s.threads, i, t, (t: Thread) => t.Sending?);
    CountUpdate(s.threads, i, t, (t: Thread) => t.Posting?);
    CountUpdate(s.threads, i, t, (t: Thread) => t.Receiving?);
    CountUpdate(s.threads, i, t, (t: Thread) => t.Releasing?);
  }

  lemma InitInv(s: State)
    requires Init(s)
    ensures Inv(s)
  {
    var max, size := s.ring.maxSize, s.ring.msgSize;
    CountNone(s.threads, (t: Thread) => t.Sending?);
    CountNone(s.threads, (t: Thread) => t.Posting?);
    CountNone(s.threads, (t: Thread) => t.Receiving?);
    CountNone(s.threads, (t: Thread) => t.Releasing?);
    AtSlotAt(0, max, size);
    forall i: nat | i < max
      ensures Slot(s.ring, i) == Contents([], i, max, size)
    {
      SlotInside(i, max, size);
    }
  }

  lemma CallInv(s: State, s': State, i: nat)
    requires Inv(s) && Calls(s, s', i)
    ensures Inv(s')
  {
    CountsUpdate(s, i, s'.threads[i]);
  }

  lemma GoConserves(s: State, i: nat)
    requires Conserved(s) && i < |s.threads| && CanGo(s, i) && s.ring.Valid()
    ensures Conserved(Go(s, i))
  {
    CountsUpdate(s, i, Go(s, i).threads[i]);
    if s.threads[i].Posting? {
      CountSome(s.threads, i, (t: Thread) => t.Posting?);
    }
  }

  /** Where the next message goes there is none that is still to be received. */
  lemma RoomToPut(s: State, i: nat)
    requires Conserved(s) && i < |s.threads| && s.threads[i].Sending?
    ensures s.ring.msgNum < s.ring.maxSize
  {
    CountSome(s.threads, i, (t: Thread) => t.Sending?);
  }

  lemma SomethingToTake(s: State, i: nat)
    requires Conserved(s) && i < |s.threads| && s.threads[i].Receiving?
    ensures 0 < s.ring.msgNum
  {
    CountSome(s.threads, i, (t: Thread) => t.Receiving?);
  }

  lemma Together(a: nat, b: nat, max: nat)
    requires max > 0 && a < b < a + max
    ensures a % max != b % max
  {
    var d := b / max - a / max;
    TimesAtLeast(d, max);
    assert b - a == d * max + (b % max - a % max);
  }

  /** A message stays in its slot until `maxSize` further messages have been sent. */
  lemma {:induction false} NotOverwritten(sent: seq<seq<byte>>, k: nat, max: nat, size: nat)
    requires max > 0 && k < |sent| <= k + max
    ensures Contents(sent, k % max, max, size) == Message(sent, k, max, size)
    decreases |sent|
  {
    var n := |sent| - 1;
    if n == k {
      assert sent[..k + 1] == sent;
    } else {
      Together(k, n, max);
      NotOverwritten(sent[..n], k, max, size);
      assert sent[..n][..k + 1] == sent[..k + 1];
    }
  }

  lemma PutPlaced(s: State, i: nat)
    requires Inv(s) && i < |s.threads| && s.threads[i].Sending?
    ensures Placed(Go(s, i)) && Delivered(Go(s, i))
  {
    var s', max, size := Go(s, i), s.ring.maxSize, s.ring.msgSize;
    var n, data := |s.sent|, s.threads[i].data;
    PutValid(s.ring, data);
    SlotIndex(n % max, size);
    SlotAfter(n, 1, max, size);
    assert s'.sent[..n] == s.sent;
    forall j: nat | j < max
      ensures Slot(s'.ring, j) == Contents(s'.sent, j, max, size)
    {
      PutSlots(s.ring, data, j);
    }
    forall k: nat | k < |s.received|
      ensures Message(s'.sent, k, max, size) == Message(s.sent, k, max, size)
    {
      assert s'.sent[..k + 1] == s.sent[..k + 1];
    }
  }

  /** What a receive copies out is the oldest message that has not been received. */
  lemma FrontIsNext(s: State, size: nat)
    requires Inv(s) && 0 < s.ring.msgNum
    ensures Front(s.ring, size)
         == Message(s.sent, |s.received|, s.ring.maxSize, s.ring.msgSize)[..Min(size, s.ring.msgSize)]
  {
    var r, max, msgSize := |s.received|, s.ring.maxSize, s.ring.msgSize;
    NumberLeft(s);
    NotOverwritten(s.sent, r, max, msgSize);
    FrontSlot(s.ring, r % max, size);
    hide Message, Contents, Front;
  }

  lemma NumberLeft(s: State)
    requires Inv(s) && 0 < s.ring.msgNum
    ensures |s.received| < |s.sent| <= |s.received| + s.ring.maxSize
  {
  }

  lemma FrontSlot(r: Ring, i: nat, size: nat)
    requires r.Valid() && i < r.maxSize && r.head == i * r.msgSize
    ensures Front(r, size) == Slot(r, i)[..Min(size, r.msgSize)]
  {
    SlotInside(i, r.maxSize, r.msgSize);
    var h, m, n := r.head, Min(size, r.msgSize), r.msgSize;
    assert m <= n && h + n <= |r.buf|;
    assert r.buf[h..h + m] == r.buf[h..h + n][..m];
  }

  lemma TakePlaced(s: State, i: nat)
    requires Inv(s) && i < |s.threads| && s.threads[i].Receiving?
    ensures Placed(Go(s, i)) && Delivered(Go(s, i))
  {
    var s', max, size := Go(s, i), s.ring.maxSize, s.ring.msgSize;
    SomethingToTake(s, i);
    TakenValid(s.ring);
    SlotAfter(|s.received|, 1, max, size);
    FrontIsNext(s, s.threads[i].size);
    forall j: nat | j < max
      ensures Slot(s'.ring, j) == Slot(s.ring, j)
    {
    }
  }

  lemma GoInv(s: State, i: nat)
    requires Inv(s) && i < |s.threads| && CanGo(s, i)
    ensures Inv(Go(s, i))
  {
    GoConserves(s, i);
    if s.threads[i].Sending? {
      PutPlaced(s, i);
    } else if s.threads[i].Receiving? {
      TakePlaced(s, i);
    } else {
      assert Go(s, i).ring == s.ring;
      forall j: nat | j < s.ring.maxSize
        ensures Slot(Go(s, i).ring, j) == Contents(s.sent, j, s.ring.maxSize, s.ring.msgSize)
      {
      }
    }
  }

  lemma NextInv(s: State, s': State)
    requires Inv(s) && Next(s, s')
    ensures Inv(s') && s.sent <= s'.sent && s.received <= s'.received
    ensures s'.ring.maxSize == s.ring.maxSize && s'.ring.msgSize == s.ring.msgSize
  {
    var i: nat :| Calls(s, s', i) || Steps(s, s', i);
    if Calls(s, s', i) {
      CallInv(s, s', i);
    } else {
      GoInv(s, i);
    }
  }

  /** The main safety result: the invariant holds in every state of every run. */
  lemma {:induction false} RunInv(states: seq<State>, k: nat)
    requires Run(states) && k < |states|
    ensures Inv(states[k])
  {
    if k == 0 {
      InitInv(states[0]);
    } else {
      RunInv(states, k - 1);
      RunStep(states, k - 1);
      NextInv(states[k - 1], states[k]);
    }
  }

  lemma RunStep(states: seq<State>, k: nat)
    requires Run(states) && k + 1 < |states|
    ensures Next(states[k], states[k + 1])
  {
  }

  /** Histories only grow. */
  lemma {:induction false} RunGrows(states: seq<State>, j: nat, k: nat)
    requires Run(states) && j <= k < |states|
    ensures states[j].sent <= states[k].sent && states[j].received <= states[k].received
    ensures states[k].ring.maxSize == states[j].ring.maxSize && states[k].ring.msgSize == states[j].ring.msgSize
    decreases k - j
  {
    hide Run, Inv, Next;
    if j < k {
      RunGrows(states, j, k - 1);
      RunInv(states, k - 1);
      RunStep(states, k - 1);
      NextInv(states[k - 1], states[k]);
    }
  }

  // ---------- what a caller may rely on ----------

  /**
   No slot is written while a message in it is still to be received, and no receive finds the queue empty: the
   subtraction on the unsigned counter does not wrap.
   */
  lemma SectionsAreSafe(states: seq<State>, k: nat, i: nat)
    requires Run(states) && k < |states| && i < |states[k].threads|
    ensures 0 <= states[k].ring.msgNum <= states[k].ring.maxSize
    ensures states[k].threads[i].Receiving? ==> 0 < states[k].ring.msgNum
    ensures states[k].threads[i].Sending? ==>
      && states[k].ring.Valid() && Go(states[k], i).ring.Valid() && states[k].ring.msgNum < states[k].ring.maxSize
      && forall m: nat | |states[k].received| <= m < |states[k].sent| ::
           Slot(Go(states[k], i).ring, m % states[k].ring.maxSize) == Slot(states[k].ring, m % states[k].ring.maxSize)
  {
    var s := states[k];
    RunInv(states, k);
    if s.threads[i].Receiving? {
      SomethingToTake(s, i);
    }
    if s.threads[i].Sending? {
      RoomToPut(s, i);
      PutValid(s.ring, s.threads[i].data);
      SlotIndex(|s.sent| % s.ring.maxSize, s.ring.msgSize);
      forall m: nat | |s.received| <= m < |s.sent|
        ensures Slot(Go(s, i).ring, m % s.ring.maxSize) == Slot(s.ring, m % s.ring.maxSize)
      {
        Together(m, |s.sent|, s.ring.maxSize);
        PutSlots(s.ring, s.threads[i].data, m % s.ring.maxSize);
      }
    }
  }

  lemma OnSlot(r: Ring, at: int)
    requires r.Valid() && AtSlot(at, r.maxSize, r.msgSize)
    ensures at % r.msgSize == 0 && 0 <= at < |r.buf|
  {
    CursorInside(r, at);
    DivMod(at, at / r.msgSize, 0, r.msgSize);
  }

  /** The semaphore values, the counter and the threads on their way always add up, and the cursors are in step. */
  lemma CountersAgree(states: seq<State>, k: nat)
    requires Run(states) && k < |states|
    ensures Conserved(states[k]) && states[k].ring.Valid()
    ensures var r := states[k].ring;
      && r.head % r.msgSize == 0 && r.tail % r.msgSize == 0 && 0 <= r.head < |r.buf| && 0 <= r.tail < |r.buf|
      && r.tail == (r.head + r.msgNum * r.msgSize) % |r.buf|
  {
    RunInv(states, k);
    var s := states[k];
    var r := s.ring;
    OnSlot(r, r.head);
    OnSlot(r, r.tail);
    SlotAfter(|s.received|, r.msgNum, r.maxSize, r.msgSize);
  }

  /**
   The counter is the number of messages sent and not yet received, at every moment of every run, and changes between
   two moments by what was sent and received in between. The semaphores bound it from both sides, and pin it down when
   no thread is on its way.
   */
  lemma CountIsPending(states: seq<State>, j: nat, k: nat)
    requires Run(states) && j <= k < |states|
    ensures var s, s' := states[j], states[k];
      && s'.ring.msgNum == |s'.sent| - |s'.received|
      && s.sent <= s'.sent && s.received <= s'.received
      && s'.ring.msgNum - s.ring.msgNum == |s'.sent[|s.sent|..]| - |s'.received[|s.received|..]|
      && 0 <= s'.rx <= s'.ring.msgNum <= s'.ring.maxSize - s'.tx <= s'.ring.maxSize
      && ((forall t: nat | t < |s'.threads| ::
            s'.threads[t].Idle? || s'.threads[t].WantSend? || s'.threads[t].WantReceive?) ==>
          s'.rx == s'.ring.msgNum == s'.ring.maxSize - s'.tx)
  {
    RunInv(states, j);
    RunInv(states, k);
    RunGrows(states, j, k);
    var s' := states[k];
    if forall t: nat | t < |s'.threads| :: s'.threads[t].Idle? || s'.threads[t].WantSend? || s'.threads[t].WantReceive? {
      NobodyOnTheWay(s');
    }
  }

  /**
   The queue is a FIFO: delivery `j` brings the bytes of the `j`-th message sent, as many as sender, receiver and
   slot have in common.
   */
  lemma DeliversInOrder(states: seq<State>, k: nat, j: nat)
    requires Run(states) && k < |states| && j < |states[k].received|
    ensures j < |states[k].sent|
    ensures var s := states[k];
      var d, sent, size := s.received[j], s.sent[j], s.ring.msgSize;
      && |d.bytes| == Min(d.size, size)
      && forall x: nat | x < |d.bytes| && x < |sent| :: d.bytes[x] == sent[x]
  {
    RunInv(states, k);
    var s := states[k];
    MessageBytes(s.sent, j, s.ring.maxSize, s.ring.msgSize);
  }

  /** Behind a short message stands what the message before it in that slot has left, or zeros. */
  lemma MessageBytes(sent: seq<seq<byte>>, k: nat, max: nat, size: nat)
    requires max > 0 && k < |sent|
    ensures Message(sent, k, max, size)
         == Overlay(if k < max then Zeros(size) else Message(sent, k - max, max, size), sent[k])
  {
    var before := sent[..k];
    assert sent[..k + 1][..k] == before;
    assert Message(sent, k, max, size) == Overlay(Contents(before, k % max, max, size), sent[k]);
    if k < max {
      NothingSent(before, k, max, size);
    } else {
      SameSlot(k, max);
      NotOverwritten(before, k - max, max, size);
      assert before[..k - max + 1] == sent[..k - max + 1];
    }
  }

  lemma SameSlot(k: nat, max: nat)
    requires 0 < max <= k
    ensures (k - max) % max == k % max
  {
    DivMod(k - max, k / max - 1, k % max, max);
  }

  lemma {:induction false} NothingSent(sent: seq<seq<byte>>, i: nat, max: nat, size: nat)
    requires |sent| <= i < max
    ensures Contents(sent, i % max, max, size) == Zeros(size)
  {
    DivMod(i, 0, i, max);
    if sent != [] {
      DivMod(|sent| - 1, 0, |sent| - 1, max);
      NothingSent(sent[..|sent| - 1], i, max, size);
    }
  }

  /** When a sender and a receiver wait, some thread can go on. */
  lemma SomeoneCanGo(states: seq<State>, k: nat, i: nat, j: nat)
    requires Run(states) && k < |states| && i < |states[k].threads| && j < |states[k].threads|
    requires states[k].threads[i].WantSend? && states[k].threads[j].WantReceive?
    ensures exists t: nat :: t < |states[k].threads| && CanGo(states[k], t)
  {
    var s := states[k];
    RunInv(states, k);
    if forall t: nat | t < |s.threads| :: !CanGo(s, t) {
      Stuck(states, k);
    }
  }

  /** When no thread can go on, those that wait to send face a full queue and those that wait to receive an empty one. */
  lemma Stuck(states: seq<State>, k: nat)
    requires Run(states) && k < |states| && forall t: nat | t < |states[k].threads| :: !CanGo(states[k], t)
    ensures forall t: nat | t < |states[k].threads| ::
      && (states[k].threads[t].WantSend? ==> states[k].ring.msgNum == states[k].ring.maxSize)
      && (states[k].threads[t].WantReceive? ==> states[k].ring.msgNum == 0)
  {
    RunInv(states, k);
    forall t: nat | t < |states[k].threads|
      ensures states[k].threads[t].Idle? || states[k].threads[t].WantSend? || states[k].threads[t].WantReceive?
    {
      assert !CanGo(states[k], t);
    }
    NobodyOnTheWay(states[k]);
    forall t: nat | t < |states[k].threads|
      ensures states[k].threads[t].WantSend? ==> states[k].tx == 0
      ensures states[k].threads[t].WantReceive? ==> states[k].rx == 0
    {
      assert !CanGo(states[k], t);
    }
  }

  lemma NobodyOnTheWay(s: State)
    requires forall t: nat | t < |s.threads| ::
      s.threads[t].Idle? || s.threads[t].WantSend? || s.threads[t].WantReceive?
    ensures BeforePut(s) == AfterPut(s) == BeforeTake(s) == AfterTake(s) == 0
  {
    CountNone(s.threads, (t: Thread) => t.Sending?);
    CountNone(s.threads, (t: Thread) => t.Posting?);
    CountNone(s.threads, (t: Thread) => t.Receiving?);
    CountNone(s.threads, (t: Thread) => t.Releasing?);
  }

  /** With no other call in flight, a send that does not wait fails exactly when the queue is full. */
  lemma NoWaitSend(states: seq<State>, k: nat, i: nat)
    requires Run(states) && k < |states| && i < |states[k].threads|
    requires states[k].threads[i].WantSend? && !states[k].threads[i].block
    requires forall t: nat | t < |states[k].threads| && t != i :: states[k].threads[t].Idle?
    ensures states[k].ring.Valid()
    ensures var s, s' := states[k], Go(states[k], i);
      if s.ring.msgNum == s.ring.maxSize then s' == s.(threads := s.threads[i := Idle])
      else s' == s.(tx := s.tx - 1, threads := s.threads[i := Sending(s.threads[i].data)])
  {
    RunInv(states, k);
    NobodyOnTheWay(states[k]);
  }

  /** With no other call in flight, a receive that does not wait fails exactly when the queue is empty. */
  lemma NoWaitReceive(states: seq<State>, k: nat, i: nat)
    requires Run(states) && k < |states| && i < |states[k].threads|
    requires states[k].threads[i].WantReceive? && !states[k].threads[i].block
    requires forall t: nat | t < |states[k].threads| && t != i :: states[k].threads[t].Idle?
    ensures states[k].ring.Valid()
    ensures var s, s' := states[k], Go(states[k], i);
      if s.ring.msgNum == 0 then s' == s.(threads := s.threads[i := Idle])
      else s' == s.(rx := s.rx - 1, threads := s.threads[i := Receiving(s.threads[i].size)])
  {
    RunInv(states, k);
    NobodyOnTheWay(states[k]);
  }

  lemma PeekIsMessage(s: State, size: nat, offset: nat)
    requires Inv(s) && offset < s.ring.msgNum
    ensures Peeked(s.ring, size, offset)
         == Some(Message(s.sent, |s.received| + offset, s.ring.maxSize, s.ring.msgSize)[..Min(size, s.ring.msgSize)])
  {
    var r, max, n, m := |s.received|, s.ring.maxSize, s.ring.msgSize, Min(size, s.ring.msgSize);
    NumberLeft(s);
    NotOverwritten(s.sent, r + offset, max, n);
    SlotAfter(r, offset, max, n);
    PeekInside(s.ring, offset);
    var i := (r + offset) % max;
    var at := i * n;
    SlotInside(i, max, n);
    assert Slot(s.ring, i) == s.ring.buf[at..at + n];
    assert s.ring.buf[at..at + m] == s.ring.buf[at..at + n][..m];
  }

  /**
   Looking ahead: a peek succeeds exactly when there are more messages than its offset, and what it returns is what
   the receive that many places further will deliver, whatever the threads do in between.
   */
  lemma PeekForesees(states: seq<State>, j: nat, k: nat, size: nat, offset: nat)
    requires Run(states) && j <= k < |states|
    ensures states[j].ring.Valid()
    ensures Peeked(states[j].ring, size, offset).Some? <==> offset < states[j].ring.msgNum
    ensures var at := |states[j].received| + offset;
      offset < states[j].ring.msgNum && at < |states[k].received| && states[k].received[at].size == size ==>
        Peeked(states[j].ring, size, offset) == Some(states[k].received[at].bytes)
  {
    RunInv(states, j);
    RunInv(states, k);
    RunGrows(states, j, k);
    var s, s', at := states[j], states[k], |states[j].received| + offset;
    if offset < s.ring.msgNum {
      PeekIsMessage(s, size, offset);
      if at < |s'.received| && s'.received[at].size == size {
        assert s.sent[..at + 1] == s'.sent[..at + 1];
        assert Message(s.sent, at, s.ring.maxSize, s.ring.msgSize) == Message(s'.sent, at, s.ring.maxSize, s.ring.msgSize);
      }
    }
  }
}
