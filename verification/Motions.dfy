/** The motions by name: the poses of each, the servos it moves, and the file or pose that comes of it. */
module Motions {
  import opened Options
  import opened HexDigits
  import opened Bytes
  import opened PowerOfTwo
  import opened Servo
  import opened Motion

  /** Poses for the servos `first` to `last`, counted from 1. */
  datatype Routine = Routine(poses: seq<string>, first: nat, last: nat)

  /** Two to six poses, each with a pair of characters for every servo of the range. */
  ghost predicate Sound(r: Routine) {
    && 2 <= |r.poses| <= 6 && 1 <= r.first <= r.last <= 16
    && forall s | s in r.poses :: |s| == 2 * (r.last + 1 - r.first)
  }

  /** All texts from the `k`-th on have length `n`. */
  predicate Lengths(poses: seq<string>, n: int, k: nat)
    decreases |poses| - k
  {
    k < |poses| ==> |poses[k]| == n && Lengths(poses, n, k + 1)
  }

  lemma {:induction false} LengthsAre(poses: seq<string>, n: int, k: nat)
    requires Lengths(poses, n, k)
    ensures forall i | k <= i < |poses| :: |poses[i]| == n
    decreases |poses| - k
  {
    if k < |poses| {
      LengthsAre(poses, n, k + 1);
    }
  }

  /** A routine, whose texts are as long as they must be. */
  function Known(poses: seq<string>, first: nat, last: nat): (r: Option<Routine>)
    requires 2 <= |poses| <= 6 && 1 <= first <= last <= 16 && Lengths(poses, 2 * (last + 1 - first), 0)
    ensures r == Some(Routine(poses, first, last)) && SoundIfAny(r)
  {
    LengthsAre(poses, 2 * (last + 1 - first), 0);
    Some(Routine(poses, first, last))
  }

  ghost predicate SoundIfAny(r: Option<Routine>) {
    r.Some? ==> Sound(r.value)
  }

  /** What a name and a direction stand for: a routine, with its slower turning, a pose of the head, or nothing. */
  datatype Choice = Moves(routine: Routine, turning: bool) | HeadTurn(angle: string) | Unsupported

  function Moving(r: Option<Routine>, turning: bool): Choice {
    match r
    case Some(x) => Moves(x, turning)
    case None => Unsupported
  }

  /** The names of `ubtSetRobotMotion`; `crouch` and `bow` take any direction. */
  function Choose(kind: string, direct: string): (c: Choice)
    ensures c.Moves? ==> Sound(c.routine)
    ensures c.HeadTurn? ==> |c.angle| == 2
  {
    hide Sound, Raise, Stretch, ComeOn, Wave, Bend, Walk, Turn, Crouch, Bow;
    if kind == "crouch" then Moving(Crouch(), false)
    else if kind == "raise" then Moving(Raise(direct), false)
    else if kind == "stretch" then Moving(Stretch(direct), false)
    else if kind == "come on" then Moving(ComeOn(direct), false)
    else if kind == "wave" then Moving(Wave(direct), false)
    else if kind == "bend" then Moving(Bend(direct), false)
    else if kind == "walk" then Moving(Walk(direct), false)
    else if kind == "turn around" then Moving(Turn(direct), true)
    else if kind == "head" then
      if direct == "left" then HeadTurn("28")
      else if direct == "right" then HeadTurn("78")
      else if direct == "front" then HeadTurn("5A")
      else Unsupported
    else if kind == "bow" then Moving(Bow(), false)
    else Unsupported
  }

  function Crouch(): (r: Option<Routine>)
    ensures r.Some? && SoundIfAny(r)
  {
    hide Sound, SoundIfAny;
    Known(["5A3A4A6E595A78684559", "5E2E00A5555C86B40E5A", "5A3A4A6E595A78684559"], 7, 16)
  }

  function Raise(direct: string): (r: Option<Routine>)
    ensures SoundIfAny(r)
  {
    hide Sound;
    if direct == "left" then
      Known(["5b5a5a", "5bad5a", "5b5a5a"], 4, 6)
    else if direct == "right" then
      Known(["5b5a5a", "5b075a", "5b5a5a"], 1, 3)
    else if direct == "both" then
      Known(["5b5a5a5a5859", "5b075a5aaf5e", "5b5a5a5a5859"], 1, 6)
    else
      None
  }

  function Stretch(direct: string): (r: Option<Routine>)
    ensures SoundIfAny(r)
  {
    hide Sound;
    if direct == "left" then
      Known(["59585a", "b30059", "59585a"], 4, 6)
    else if direct == "right" then
      Known(["5b5a5a", "00b45a", "5b5a5a"], 1, 3)
    else if direct == "both" then
      Known(["595a5a5a5959", "00b45ab30059", "595a5a5a5959"], 1, 6)
    else
      None
  }

  function ComeOn(direct: string): (r: Option<Routine>)
    ensures SoundIfAny(r)
  {
    hide Sound;
    if direct == "left" then
      Known(["59585a", "ae0016", "ae005c", "ad000a", "ad005e", "59585a"], 4, 6)
    else if direct == "right" then
      Known(["585a5a", "00b4ae", "00b45e", "00b4a8", "00b45c", "585a5a"], 1, 3)
    else if direct == "both" then
      Known(["585a5a59585a", "00b4aeae0016", "00b45eae005c", "00b4a8ad000a", "00b45cad005e", "585a5a59585a"], 1, 6)
    else
      None
  }

  function Wave(direct: string): (r: Option<Routine>)
    ensures SoundIfAny(r)
  {
    hide Sound;
    if direct == "left" then
      Known(["595859", "591e59", "59825a", "591d59", "59865a", "595859"], 4, 6)
    else if direct == "right" then
      Known(["585a5a", "58985a", "58315a", "588f5a", "58335a", "585a5a"], 1, 3)
    else if direct == "both" then
      Known(["585a5a595859", "58985a591e59", "58315a59825a", "588f5a591d59", "58335a59865a", "585a5a595859"], 1, 6)
    else
      None
  }

  function Bend(direct: string): (r: Option<Routine>)
    ensures SoundIfAny(r)
  {
    hide Sound;
    if direct == "left" then
      Known(["597769445a", "6788973661", "597769445a"], 12, 16)
    else if direct == "right" then
      Known(["5a3a4a6e59", "5830317252", "5a3a4a6e59"], 7, 11)
    else
      None
  }

  function Walk(direct: string): (r: Option<Routine>)
    ensures SoundIfAny(r)
  {
    hide Sound;
    if direct == "front" then
      Known(["602724815565a3904650", "4932159c664f9a9d3460", "49160c8962508c8f3367", "4c11207464528c8f3364",
             "601d247a51667c8e224a", "602724814e699aac264f"], 7, 16)
    else if direct == "back" then
      Known(["602a1d8d50649a973b4d", "602a1d8d506683b10f55", "612a1d8d5066779a164e", "4e1b1d7a67528e962d66",
             "4f230c9861528e962d66", "4c371c9967528e962d66"], 7, 16)
    else if direct == "left" then
      Known(["5a271b8c595c8e9b2855", "42271b8e67598e9b2855"], 7, 16)
    else if direct == "right" then
      Known(["5a271d875e5a8b972b5d", "5c271d875c708b972b51"], 7, 16)
    else
      None
  }

  function Turn(direct: string): (r: Option<Routine>)
    ensures SoundIfAny(r)
  {
    hide Sound;
    if direct == "left" then
      Known(["4f10306068636e8e1453", "5a281d895e5c8a972a5a"], 7, 16)
    else if direct == "right" then
      Known(["54532e9f6369a08a554d", "5b281d875a5a89972a5a"], 7, 16)
    else
      None
  }

  function Bow(): (r: Option<Routine>)
    ensures r.Some? && SoundIfAny(r)
  {
    hide Sound, SoundIfAny;
    Known(["595a5b59585b5a3a4a6e595977674459", "59b45b59005b5a179e3159589d19845b",
             "59b45b59005a5a179e3259589d18825a", "59b45b59005a5c679e485a5b49186b5a",
             "595a5b59585b5a3a4a6e595977674459"], 1, 16)
  }

  // ---------- the servos of a routine ----------

  /** `SERVO_RANG_INDEX`: the servos `first` to `last`. */
  function Range(first: nat, last: nat): nat
    requires 1 <= first <= last
  {
    Exp2Monotone(first - 1, last);
    Exp2(last) - Exp2(first - 1)
  }

  lemma {:induction false} OnesBetween(a: nat, b: nat, i: nat)
    requires a <= b
    ensures Exp2(a) <= Exp2(b) && (Bit(Exp2(b) - Exp2(a), i) <==> a <= i < b)
    decreases i
  {
    Exp2Monotone(a, b);
    var x := Exp2(b) - Exp2(a);
    if i > 0 {
      ShrHalf(x, i - 1);
    }
    if b == 0 {
      ShrZero(i);
    } else if a == 0 {
      assert x % 2 == 1 && x / 2 == Exp2(b - 1) - Exp2(0);
      if i > 0 {
        OnesBetween(0, b - 1, i - 1);
      }
    } else {
      assert x / 2 == Exp2(b - 1) - Exp2(a - 1) && x % 2 == 0;
      if i > 0 {
        OnesBetween(a - 1, b - 1, i - 1);
      }
    }
  }

  /** The mask has the bits of the servos in the range and no others. */
  lemma RangeBits(first: nat, last: nat, i: nat)
    requires 1 <= first <= last
    ensures Bit(Range(first, last), i) <==> first - 1 <= i < last
  {
    OnesBetween(first - 1, last, i);
  }

  lemma {:induction false} RangeRank(first: nat, last: nat, i: nat)
    requires 1 <= first <= last
    ensures Rank(Range(first, last), i) == if i < first then 0 else if i <= last then i + 1 - first else last + 1 - first
  {
    hide Bit, Range;
    if i > 0 {
      RangeRank(first, last, i - 1);
      RangeBits(first, last, i - 1);
    }
  }

  // ---------- what tells the directions apart ----------

  ghost predicate Moved(c: Choice, first: nat, last: nat) {
    c.Moves? && c.routine.first == first && c.routine.last == last
  }

  /** The names and directions that are supported. */
  lemma SupportedExactly(kind: string, direct: string)
    ensures !Choose(kind, direct).Unsupported? <==>
      || kind in ["crouch", "bow"]
      || (kind in ["raise", "stretch", "come on", "wave"] && direct in ["left", "right", "both"])
      || (kind in ["bend", "turn around"] && direct in ["left", "right"])
      || (kind == "walk" && direct in ["front", "back", "left", "right"])
      || (kind == "head" && direct in ["left", "right", "front"])
  {
    hide Sound, SoundIfAny;
  }

  /** Turning around is what is done at the slower pace, and nothing else. */
  lemma TurningIsSlower(kind: string, direct: string)
    requires Choose(kind, direct).Moves?
    ensures Choose(kind, direct).turning <==> kind == "turn around"
  {
    hide Sound, SoundIfAny, Raise, Stretch, ComeOn, Wave, Bend, Walk, Turn, Crouch, Bow;
  }

  /** A gesture of one arm moves the three servos of that arm, and one of both arms all six. */
  lemma ArmsMoved(kind: string)
    requires kind in ["raise", "stretch", "come on", "wave"]
    ensures Moved(Choose(kind, "left"), 4, 6) && Moved(Choose(kind, "right"), 1, 3) && Moved(Choose(kind, "both"), 1, 6)
  {
    hide Sound, SoundIfAny, Crouch, Bend, Walk, Turn, Bow;
  }

  /** Bending to a side moves the leg of that side; everything else moves both legs, and a bow arms and legs. */
  lemma LegsMoved(direct: string)
    ensures Moved(Choose("bend", "left"), 12, 16) && Moved(Choose("bend", "right"), 7, 11)
    ensures Moved(Choose("crouch", direct), 7, 16) && Moved(Choose("bow", direct), 1, 16)
    ensures Choose("walk", direct).Moves? ==> Moved(Choose("walk", direct), 7, 16)
    ensures Choose("turn around", direct).Moves? ==> Moved(Choose("turn around", direct), 7, 16)
  {
    hide Sound, SoundIfAny, Raise, Stretch, ComeOn, Wave;
  }

  /** The poses of both arms are those of the right arm and of the left arm side by side. */
  ghost predicate SideBySide(l: Option<Routine>, r: Option<Routine>, both: Option<Routine>) {
    && l.Some? && r.Some? && both.Some? && |l.value.poses| == |r.value.poses| == |both.value.poses| == 6
    && forall k | 0 <= k < 6 :: both.value.poses[k] == r.value.poses[k] + l.value.poses[k]
  }

  /** Beckoning with both arms is doing it with the right and the left at once. */
  lemma BeckonBoth()
    ensures SideBySide(ComeOn("left"), ComeOn("right"), ComeOn("both"))
  {
    hide Sound, SoundIfAny, Wave;
    var l, r, b := ComeOn("left").value.poses, ComeOn("right").value.poses, ComeOn("both").value.poses;
    assert b[0] == r[0] + l[0] && b[1] == r[1] + l[1] && b[2] == r[2] + l[2];
    assert b[3] == r[3] + l[3] && b[4] == r[4] + l[4] && b[5] == r[5] + l[5];
  }

  /** And so is waving. */
  lemma WaveBoth()
    ensures SideBySide(Wave("left"), Wave("right"), Wave("both"))
  {
    hide Sound, SoundIfAny, ComeOn;
    var l, r, b := Wave("left").value.poses, Wave("right").value.poses, Wave("both").value.poses;
    assert b[0] == r[0] + l[0] && b[1] == r[1] + l[1] && b[2] == r[2] + l[2];
    assert b[3] == r[3] + l[3] && b[4] == r[4] + l[4] && b[5] == r[5] + l[5];
  }

  ghost predicate Begins(r: Option<Routine>, poses: nat, first: string) {
    r.Some? && |r.value.poses| == poses && poses > 0 && first <= r.value.poses[0]
  }

  /** Steps forward, backward and to the sides begin with different poses, and so do the two turns. */
  lemma StepsApart()
    ensures Begins(Walk("front"), 6, "6027") && Begins(Walk("back"), 6, "602a")
    ensures Begins(Walk("left"), 2, "5a271b") && Begins(Walk("right"), 2, "5a271d")
    ensures Begins(Turn("left"), 2, "4f") && Begins(Turn("right"), 2, "54")
  {
    hide Sound, SoundIfAny;
  }

  ghost predicate Returns(r: Option<Routine>) {
    r.Some? ==> r.value.poses != [] && r.value.poses[0] == r.value.poses[|r.value.poses| - 1]
  }

  /** Every motion but walking and turning ends in the pose in which it began. */
  lemma GesturesReturn(direct: string)
    ensures Returns(Crouch()) && Returns(Raise(direct)) && Returns(Stretch(direct)) && Returns(Bow())
    ensures Returns(ComeOn(direct)) && Returns(Wave(direct)) && Returns(Bend(direct))
  {
    hide Sound, SoundIfAny;
  }

  /** The head turns to 40 degrees for left, to 120 for right, and to 90 for front. */
  lemma HeadAngles(direct: string)
    requires direct in ["left", "right", "front"]
    ensures var c := Choose("head", direct);
      && c.HeadTurn?
      && PairAngle(c.angle[0], c.angle[1]) == if direct == "left" then 40 else if direct == "right" then 120 else 90
  {
    hide PairAngle, Sound, Raise, Stretch, ComeOn, Wave, Bend, Walk, Turn, Crouch, Bow;
    PairOf('2', 2, '8', 8);
    PairOf('7', 7, '8', 8);
    PairOf('5', 5, 'A', 10);
  }

  lemma PairOf(c: char, k: nat, d: char, l: nat)
    requires StandsFor(c, k) && StandsFor(d, l)
    ensures PairAngle(c, d) == 16 * k + l
  {
    PlaceIs(c, k);
    PlaceIs(d, l);
  }

  // ---------- the file of a routine ----------

  function Mask(r: Routine): nat
    requires 1 <= r.first <= r.last
  {
    Range(r.first, r.last)
  }

  /** A servo in the range gets the value of its own pair in each pose, every other servo is left alone. */
  lemma PairOfServo(r: Routine, s: string, i: nat)
    requires Sound(r) && s in r.poses
    ensures var k := 2 * (i + 1 - r.first);
      if r.first <= i + 1 <= r.last then
        && PoseByte(s, Mask(r), i) == StrToL(s[k..k + 2]) % 256
        && (AllHexDigits(s[k..k + 2]) ==> PoseByte(s, Mask(r), i) == HexMagnitude(s[k..k + 2]))
      else PoseByte(s, Mask(r), i) == 0xFF
  {
    hide Bit, Range, Rank, StrToL, HexMagnitude, IsHexDigit;
    var k := 2 * (i + 1 - r.first);
    if r.first <= i + 1 <= r.last {
      assert s[k..k + 2] == [s[k], s[k + 1]];
      if AllHexDigits(s[k..k + 2]) {
        assert IsHexDigit(s[k..k + 2][0]) && IsHexDigit(s[k..k + 2][1]);
        HexPair(s[k], s[k + 1]);
      }
    }
    RangeBits(r.first, r.last, i);
    RangeRank(r.first, r.last, i);
  }

  /** What the file of a routine is good for: one start frame and one end frame, and between them only middle frames. */
  ghost predicate GoodRun(file: seq<byte>, total: nat) {
    && total >= 2 && |file| == FRAME * (total + 2)
    && forall k: nat | 1 <= k <= total ::
         && |Record(file, k)| == FRAME
         && Record(file, k)[3] == if k == 1 then 1 else if k == total then 3 else 2
  }

  /**
   The file of any motion there is, repeated at least once: it is a good file, it has one start and one end frame, its
   frames are those of the motion's poses over and over, each with the pace that the speed stands for, and it runs for
   twenty times that pace for each frame.
   */
  lemma RoutineFile(r: Routine, turning: bool, speed: int, repeat: nat)
    requires Sound(r) && 0 < speed <= 6 && repeat >= 1 && repeat * |r.poses| <= 0xFFFF
    ensures var total, pace := repeat * |r.poses|, Speed(speed, turning);
      var file := MotionFile(pace, r.poses, Mask(r), total);
      && IsPace(pace, speed, turning) && GoodRun(file, total) && total * pace * 20 >= 0
      && GoodFile(file, pace, r.poses, Mask(r), total, total * pace * 20)
  {
    hide MotionFile, GoodFile, GoodRun, Mask;
    var total, pace := repeat * |r.poses|, Speed(speed, turning);
    TimesAtLeast(repeat, |r.poses|);
    SpeedIsPace(speed, turning);
    MotionFileIsGood(pace, r.poses, Mask(r), total);
    StartAndEnd(MotionFile(pace, r.poses, Mask(r), total), pace, r.poses, Mask(r), total, total * pace * 20);
  }

  /** The running time in a file. */
  function RunningTime(file: seq<byte>, total: nat): nat {
    if |Record(file, total + 1)| == FRAME then Little(Record(file, total + 1)[29..]) else 0
  }

  lemma RunningTimeIs(r: Routine, turning: bool, speed: int, repeat: nat)
    requires Sound(r) && 0 < speed <= 6 && repeat >= 1 && repeat * |r.poses| <= 0xFFFF
    ensures var total, pace := repeat * |r.poses|, Speed(speed, turning);
      total >= 0 && RunningTime(MotionFile(pace, r.poses, Mask(r), total), total) == total * pace * 20
  {
    hide MotionFile, Mask, Record, GoodFrame, Little, Sound, GoodRun, IsPace, Speed;
    NotNegative(repeat, |r.poses|);
    RoutineFile(r, turning, speed, repeat);
  }

  /** The running time at a higher speed is never longer. */
  lemma FasterIsNoLonger(r: Routine, turning: bool, speed: int, faster: int, repeat: nat)
    requires Sound(r) && 0 < speed <= faster <= 6 && repeat >= 1 && repeat * |r.poses| <= 0xFFFF
    ensures var total := repeat * |r.poses|;
      total >= 0
      && RunningTime(MotionFile(Speed(faster, turning), r.poses, Mask(r), total), total)
         <= RunningTime(MotionFile(Speed(speed, turning), r.poses, Mask(r), total), total)
  {
    hide MotionFile, Mask, Record, Little, Sound, RunningTime, Speed;
    var total := repeat * |r.poses|;
    RunningTimeIs(r, turning, speed, repeat);
    RunningTimeIs(r, turning, faster, repeat);
    FasterPace(speed, faster);
    FasterPace(faster, faster);
    NotLess(total, Speed(faster, turning), Speed(speed, turning));
  }

  lemma NotLess(total: nat, a: nat, b: nat)
    requires a <= b
    ensures total * a <= total * b
  {
    NotNegative(total, b - a);
    assert total * b == total * a + total * (b - a);
  }

  lemma StartAndEnd(file: seq<byte>, speed: byte, poses: seq<string>, mask: nat, total: nat, time: nat)
    requires poses != [] && total >= 2 && GoodFile(file, speed, poses, mask, total, time)
    ensures GoodRun(file, total)
  {
    hide PoseByte, Sum, Record, Little;
    forall k: nat | 1 <= k <= total
      ensures |Record(file, k)| == FRAME
      ensures Record(file, k)[3] == if k == 1 then 1 else if k == total then 3 else 2
    {
      assert GoodFrame(Record(file, k), speed, poses[(k - 1) % |poses|], mask, k, total);
    }
  }

  // ---------- the call ----------

  /** The file is handed on to be played, the pose is sent, or nothing comes of the call. */
  datatype MotionRc = Played | Sent | WrongParam | NoResource

  /** What the choice asks for, with the file written and the pose built for it. */
  ghost predicate CarriedOut(c: Choice, speed: int, repeat: int, rc: MotionRc, file: seq<byte>, pose: string)
    requires 0 < speed <= 6
  {
    match c
    case Moves(r, turning) =>
      && rc == Played && Sound(r)
      && file == MotionFile(Speed(speed, turning), r.poses, Mask(r), repeat * |r.poses|)
    case HeadTurn(angle) =>
      && rc == Sent && file == Zeros(FRAME) && pose == ScatteredText(HEAD, angle, MAX_SERVO_NUM) + "\0"
    case Unsupported => rc == WrongParam && file == Zeros(FRAME)
  }

  /**
   `ubtSetRobotMotion`; `opens` is whether a file can be opened. A name or direction that is not supported is noticed
   when the head of the file has been written already.
   */
  method SetRobotMotion(kind: Option<string>, direct: string, speed: int, repeat: int, opens: bool, pose: array<char>)
    returns (rc: MotionRc, file: File?)
    requires pose.Length == POSE_LENGTH + 1
    modifies pose
    ensures kind == None || !(0 < speed <= 6) ==> rc == WrongParam && file == null
    ensures kind.Some? && 0 < speed <= 6 && !opens ==> rc == NoResource && file == null
    ensures kind.Some? && 0 < speed <= 6 && opens ==>
      file != null && CarriedOut(Choose(kind.value, direct), speed, repeat, rc, file.bytes, pose[..])
    ensures rc != Sent ==> pose[..] == old(pose[..])
  {
    hide MotionFile, ScatteredText, Sound, Choose;
    file := null;
    if kind == None || speed <= 0 || speed > 6 {
      return WrongParam, null;
    }
    if !opens {
      return NoResource, null;
    }
    match Choose(kind.value, direct)
    case Moves(r, turning) =>
      SoundMask(r);
      file := WriteMotion(r.poses, Mask(r), speed, turning, repeat);
      rc := Played;
    case HeadTurn(angle) =>
      file := WriteHead();
      OneServo();
      var posed := Scatter(HEAD, angle, pose);
      assert pose[..] == pose[..POSE_LENGTH] + "\0";
      rc := Sent;
    case Unsupported =>
      file := WriteHead();
      rc := WrongParam;
  }

  lemma SoundMask(r: Routine)
    requires Sound(r)
    ensures r.poses != [] && 1 <= r.first <= r.last
  {
  }

  /** A file with only its head. */
  method WriteHead() returns (file: File)
    ensures fresh(file) && file.bytes == Zeros(FRAME)
  {
    file := new File();
    var frame := new byte[FRAME](_ => 0);
    assert frame[..] == Zeros(FRAME);
    file.Write(frame);
  }

  /** `SERVO_HEAD_INDEX`. */
  const HEAD: nat := 0x1_0000

  lemma HeadBits(i: nat)
    ensures Bit(HEAD, i) <==> i == 16
  {
    hide Bit;
    assert Exp2(10) == 1024;
    assert Exp2(16) == 0x1_0000 && Exp2(17) == 0x2_0000;
    OnesBetween(16, 17, i);
  }

  lemma OneServo()
    ensures Rank(HEAD, MAX_SERVO_NUM) == 1
  {
    hide Bit;
    HeadRank(16);
    HeadBits(16);
    RankNext(HEAD, 16);
  }

  /** In the pose that turns the head, the seventeenth servo reads the angle of the head and every other one 255. */
  lemma HeadPose(angle: string, i: nat)
    requires |angle| == 2 && i < MAX_SERVO_NUM
    ensures GetAngle(ScatteredText(HEAD, angle, MAX_SERVO_NUM), i + 1)
         == if i == 16 then PairAngle(angle[0], angle[1]) else 255
  {
    hide Bit, GetAngle, ScatteredText, PairAngle;
    OneServo();
    HeadBits(i);
    HeadRank(16);
    ScatteredAngle(HEAD, angle, i);
  }

  lemma {:induction false} HeadRank(i: nat)
    requires i <= 16
    ensures Rank(HEAD, i) == 0
  {
    hide Bit;
    if i > 0 {
      HeadRank(i - 1);
      HeadBits(i - 1);
    }
  }
}
