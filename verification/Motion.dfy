/** Motion files: a head of zeros, one frame of 33 bytes for every pose, and a tail with the running time. */
module Motion {
  import opened CText
  import opened HexDigits
  import opened Bytes
  import opened PowerOfTwo
  import opened Servo

  const FRAME: nat := 33

  const SERVO_MAX_LOW_SPEED: int := 60

  // ---------- `strtol` with base 16 ----------

  function SkipBlanks(s: string): string {
    if s != "" && (s[0] == ' ' || '\t' <= s[0] <= '\r') then SkipBlanks(s[1..]) else s
  }

  function HexNumber(s: string, acc: int): int {
    if s != "" && Translat(s[0]) >= 0 then HexNumber(s[1..], acc * 16 + Translat(s[0])) else acc
  }

  /** Of two characters, a `0x` prefix would leave no digits, and the value is 0 either way. */
  function StrToL(s: string): int {
    var t := SkipBlanks(s);
    if t != "" && t[0] == '-' then -HexNumber(t[1..], 0)
    else if t != "" && t[0] == '+' then HexNumber(t[1..], 0)
    else HexNumber(t, 0)
  }

  ghost predicate IsBlank(c: char) {
    c in " \t\n\U{B}\U{C}\r"
  }

  /** Of two characters, white space and a sign count in front of a digit, and reading ends at what is no digit. */
  lemma AnyPair(c: char, d: char)
    ensures StrToL([c, d])
         == if IsHexDigit(c) then (if IsHexDigit(d) then 16 * Place(c) + Place(d) else Place(c))
            else if !IsHexDigit(d) then 0
            else if IsBlank(c) || c == '+' then Place(d)
            else if c == '-' then -(Place(d) as int)
            else 0
  {
    hide IsHexDigit, Translat, SkipBlanks, HexNumber, IsBlank;
    TranslatIsPlace(c);
    TranslatIsPlace(d);
    NoDigit(c);
    NoDigit(d);
    SkipPair(c, d);
    OneNumber(c, d);
    NoNumber();
    assert [c, d][1..] == [d] && [d][1..] == "";
  }

  /** Neither white space nor a sign is a digit, and no sign is white space. */
  lemma NoDigit(c: char)
    ensures IsBlank(c) || c == '+' || c == '-' ==> !IsHexDigit(c)
    ensures c == '+' || c == '-' ==> !IsBlank(c)
  {
    if IsHexDigit(c) {
      Digits(Place(c));
    }
  }

  lemma SkipPair(c: char, d: char)
    ensures SkipBlanks([c, d]) == if !IsBlank(c) then [c, d] else if IsBlank(d) then "" else [d]
  {
    assert [c, d][1..] == [d] && [d][1..] == "";
    assert SkipBlanks([d]) == if IsBlank(d) then "" else [d];
  }

  lemma NoNumber()
    ensures HexNumber("", 0) == 0
  {
  }

  /** Two digits are read as the number they denote. */
  lemma HexPair(c: char, d: char)
    requires IsHexDigit(c) && IsHexDigit(d)
    ensures AllHexDigits([c, d]) && StrToL([c, d]) == HexMagnitude([c, d]) < 256
  {
    hide StrToL, IsHexDigit;
    AnyPair(c, d);
    TwoDigits(c, d);
  }

  lemma OneNumber(c: char, d: char)
    ensures HexNumber([d], 0) == if Translat(d) >= 0 then Translat(d) else 0
    ensures HexNumber([c, d], 0)
         == if Translat(c) < 0 then 0 else if Translat(d) < 0 then Translat(c) else Translat(c) * 16 + Translat(d)
  {
    hide Translat;
    assert [c, d][1..] == [d];
    LastDigit(d, 0);
    LastDigit(d, Translat(c));
  }

  lemma LastDigit(d: char, n: int)
    ensures HexNumber([d], n) == if Translat(d) >= 0 then n * 16 + Translat(d) else n
  {
    hide Translat;
    assert [d][1..] == "";
    assert HexNumber([d][1..], n * 16 + Translat(d)) == n * 16 + Translat(d);
  }

  // ---------- frames ----------

  /** The byte of servo `i`: that of its pair, or 255 when it is not in the mask or has no pair. */
  function PoseByte(angle: string, mask: nat, i: nat): byte {
    var r := Rank(mask, i);
    if Bit(mask, i) && 2 * r + 2 <= |angle| then StrToL([At(angle, 2 * r), At(angle, 2 * r + 1)]) % 256 else 0xFF
  }

  function Sum(b: seq<byte>): nat {
    if b == [] then 0 else Sum(b[..|b| - 1]) + b[|b| - 1]
  }

  /** The low byte and the next one: `x & 0xff` and `(x >> 8) & 0xff`. */
  function Low(x: int): byte { x % 256 }
  function High(x: int): byte { x / 256 % 256 }

  function Status(number: int, total: int): byte {
    if number == 1 then 1 else if total > number then 2 else 3
  }

  function Pose(angle: string, mask: nat): (p: seq<byte>)
    ensures |p| == 20 && forall i: nat | i < 20 :: p[i] == PoseByte(angle, mask, i)
  {
    seq(20, i requires 0 <= i < 20 => PoseByte(angle, mask, i))
  }

  /** The bytes of a frame up to its checksum; what the buffer held before shows in bytes 0 to 2 and 28 to 30 only. */
  function Body(was: seq<byte>, angle: string, mask: nat, number: int, total: int): (b: seq<byte>)
    requires |was| == FRAME
    ensures |b| == 31
  {
    was[..3] + [Status(number, total), Low(total), High(total), Low(number), High(number)] + Pose(angle, mask)
    + was[28..31]
  }

  /** What `_ubt_CreateMotionFrame` makes of its buffer. */
  function Framed(was: seq<byte>, angle: string, mask: nat, number: int, total: int): (f: seq<byte>)
    requires |was| == FRAME
    ensures |f| == FRAME
  {
    var b := Body(was, angle, mask, number, total);
    b + [Low(Sum(b[2..])), was[32]]
  }

  /** The bytes of the buffer that a frame takes over are those of `head`. */
  ghost predicate SameEdges(was: seq<byte>, head: seq<byte>) {
    |was| == |head| == FRAME && was[..3] == head[..3] && was[28..31] == head[28..31] && was[32] == head[32]
  }

  /** Reusing the buffer of an earlier frame makes no difference. */
  lemma FramedAgain(was: seq<byte>, head: seq<byte>, angle: string, mask: nat, number: int, total: int)
    requires SameEdges(was, head)
    ensures Framed(was, angle, mask, number, total) == Framed(head, angle, mask, number, total)
    ensures SameEdges(Framed(was, angle, mask, number, total), head)
  {
    var f := Framed(was, angle, mask, number, total);
    assert f[..3] == was[..3] && f[28..31] == was[28..31] && f[32] == was[32];
  }

  // ---------- whole files ----------

  /** The frame buffer before the first frame. */
  function FrameStart(speed: byte): (f: seq<byte>)
    ensures |f| == FRAME
  {
    [0xFB, 0xBF, 1] + Zeros(25) + [speed, 0, speed, 0, 0xED]
  }

  /** Frames 1 to `n` of a motion that goes through its poses again and again. */
  function Frames(speed: byte, poses: seq<string>, mask: nat, total: int, n: nat): (r: seq<byte>)
    requires poses != []
    ensures |r| == FRAME * n
  {
    if n == 0 then []
    else
      Frames(speed, poses, mask, total, n - 1) + Framed(FrameStart(speed), poses[(n - 1) % |poses|], mask, n, total)
  }

  function FileTail(time: int): (t: seq<byte>)
    ensures |t| == FRAME
  {
    Zeros(29) + [Low(time), High(time), Low(time / 0x1_0000), High(time / 0x1_0000)]
  }

  /** The running time, in the unit of the file. */
  function Time(total: int, speed: int): int {
    total * speed * 20
  }

  /** A whole file; without a frame to write, `total` is 0 or less. */
  function MotionFile(speed: byte, poses: seq<string>, mask: nat, total: int): seq<byte>
    requires poses != []
  {
    Zeros(FRAME) + Frames(speed, poses, mask, total, if total < 0 then 0 else total) + FileTail(Time(total, speed))
  }

  function FramesIn(repeat: nat, loop: nat): nat {
    NotNegative(repeat, loop);
    repeat * loop
  }

  class File {
    ghost var bytes: seq<byte>

    constructor ()
      ensures bytes == []
    {
      bytes := [];
    }

    method Write(a: array<byte>)
      modifies this
      ensures bytes == old(bytes) + a[..]
    {
      bytes := bytes + a[..];
    }
  }

  /** The loop over the twenty servos; `offset` counts the characters of the pairs taken so far. */
  method FillPose(frame: array<byte>, angle: string, mask: nat)
    requires frame.Length == FRAME
    modifies frame
    ensures frame[..] == old(frame[..8]) + Pose(angle, mask) + old(frame[28..])
  {
    hide StrToL, Bit, Rank;
    ghost var pose := Pose(angle, mask);
    var offset := 0;
    RankNone(mask);
    assert frame[..8] == old(frame[..8]) + pose[..0];
    for i := 0 to 20
      invariant offset == 2 * Rank(mask, i)
      invariant frame[..8 + i] == old(frame[..8]) + pose[..i] && frame[8 + i..] == old(frame[8 + i..])
    {
      ghost var rest := frame[8 + i..];
      RankNext(mask, i);
      if Bit(mask, i) {
        var servo := [At(angle, offset), At(angle, offset + 1)];
        offset := offset + 2;
        if offset > |angle| {
          frame[8 + i] := 0xFF;
        } else {
          frame[8 + i] := StrToL(servo) % 256;
        }
      } else {
        frame[8 + i] := 0xFF;
      }
      assert frame[8 + i] == PoseByte(angle, mask, i) && pose[..i + 1] == pose[..i] + [pose[i]];
      assert frame[..8 + i + 1] == frame[..8 + i] + [frame[8 + i]] && frame[8 + i + 1..] == rest[1..];
    }
    assert pose[..20] == pose && frame[..] == frame[..28] + frame[28..];
  }

  /** `_ubt_CreateMotionFrame`. */
  method CreateMotionFrame(frame: array<byte>, angle: string, mask: nat, number: int, total: int, file: File)
    requires frame.Length == FRAME
    modifies frame, file
    ensures frame[..] == Framed(old(frame[..]), angle, mask, number, total)
    ensures file.bytes == old(file.bytes) + frame[..]
  {
    hide Pose, Sum;
    ghost var was := frame[..];
    FillPose(frame, angle, mask);
    FillHead(frame, number, total);
    ghost var head := [Status(number, total), Low(total), High(total), Low(number), High(number)];
    BodyParts(was, head, Pose(angle, mask));
    assert frame[..] == Body(was, angle, mask, number, total) + was[31..];
    assert frame[..31] == Body(was, angle, mask, number, total) && frame[32] == was[32];
    assert frame[2..31] == frame[..31][2..];
    var sum := CheckSum(frame);
    frame[31] := sum % 256;
    assert frame[..] == frame[..31] + [frame[31], frame[32]];
    file.Write(frame);
  }

  /** The status, the number of frames and the number of the frame. */
  method FillHead(frame: array<byte>, number: int, total: int)
    requires frame.Length == FRAME
    modifies frame
    ensures frame[..] == old(frame[..3]) + [Status(number, total), Low(total), High(total), Low(number), High(number)]
                         + old(frame[8..])
  {
    frame[3] := if 1 == number then 1 else if total > number then 2 else 3;
    frame[4] := total % 256;
    frame[5] := total / 256 % 256;
    frame[6] := number % 256;
    frame[7] := number / 256 % 256;
  }

  lemma BodyParts(was: seq<byte>, head: seq<byte>, pose: seq<byte>)
    requires |was| == FRAME && |head| == 5 && |pose| == 20
    ensures var f := was[..8] + pose + was[28..];
      f[..3] + head + f[8..] == was[..3] + head + pose + was[28..31] + was[31..]
  {
    var f := was[..8] + pose + was[28..];
    assert f[..3] == was[..3] && f[8..] == pose + was[28..] && was[28..] == was[28..31] + was[31..];
  }

  method CheckSum(frame: array<byte>) returns (sum: nat)
    requires frame.Length == FRAME
    ensures sum == Sum(frame[2..31])
  {
    sum := 0;
    for i := 2 to 31
      invariant sum == Sum(frame[2..i])
    {
      assert frame[2..i + 1][..i - 2] == frame[2..i];
      sum := sum + frame[i];
    }
  }

  /** `SERVO_MAX_LOW_SPEED / iSpeed`, and 5 more for turning around. */
  function Speed(speed: int, turning: bool): byte
    requires 0 < speed <= 6
  {
    SERVO_MAX_LOW_SPEED / speed + if turning then 5 else 0
  }

  /** The pace is how often the speed goes into 60, and 5 more for turning around. */
  ghost predicate IsPace(pace: int, speed: int, turning: bool) {
    var p := if turning then pace - 5 else pace;
    p * speed <= 60 < (p + 1) * speed
  }

  lemma SpeedIsPace(speed: int, turning: bool)
    requires 0 < speed <= 6
    ensures IsPace(Speed(speed, turning), speed, turning)
  {
  }

  /** A higher speed has no longer pace, and turning is slower by 5. */
  lemma FasterPace(speed: int, faster: int)
    requires 0 < speed <= faster <= 6
    ensures Speed(faster, false) <= Speed(speed, false)
    ensures Speed(speed, true) == Speed(speed, false) + 5
  {
  }

  /**
   `ubtSetRobotMotion`, for a motion with these poses: the file it writes, or the refusal of a speed out of range.
   All frames are made in one buffer.
   */
  method WriteMotion(poses: seq<string>, mask: nat, speed: int, turning: bool, repeat: int) returns (file: File?)
    requires poses != []
    ensures file != null <==> 0 < speed <= 6
    ensures file != null ==> fresh(file) && file.bytes == MotionFile(Speed(speed, turning), poses, mask, repeat * |poses|)
  {
    hide Frames, Framed, FrameStart, FileTail;
    if speed <= 0 || speed > 6 {
      return null;
    }
    file := new File();
    var pace := Speed(speed, turning);
    var frame := new byte[FRAME](_ => 0);
    assert frame[..] == Zeros(FRAME);
    file.Write(frame);
    StartFrame(frame, pace);
    WriteFrames(frame, poses, mask, pace, repeat, file);
    WriteTail(frame, Time(repeat * |poses|, pace), file);
  }

  method StartFrame(frame: array<byte>, pace: byte)
    requires frame[..] == Zeros(FRAME)
    modifies frame
    ensures frame[..] == FrameStart(pace)
  {
    frame[0] := 0xFB;
    frame[1] := 0xBF;
    frame[2] := 0x01;
    frame[28] := pace;
    frame[29] := 0x00;
    frame[30] := pace;
    frame[32] := 0xED;
  }

  method WriteFrames(frame: array<byte>, poses: seq<string>, mask: nat, pace: byte, repeat: int, file: File)
    requires poses != [] && frame.Length == FRAME && frame[..] == FrameStart(pace)
    modifies frame, file
    ensures var total := repeat * |poses|;
      file.bytes == old(file.bytes) + Frames(pace, poses, mask, total, if total < 0 then 0 else total)
  {
    hide Framed, SameEdges, Frames;
    var loop, total := |poses|, repeat * |poses|;
    NoFrames(pace, poses, mask, total);
    TimesAtLeast(repeat, loop);
    Itself(frame[..]);
    var i := 0;
    while i < repeat
      invariant 0 <= i && (i <= repeat || i == 0) && frame.Length == FRAME && SameEdges(frame[..], FrameStart(pace))
      invariant file.bytes == old(file.bytes) + Frames(pace, poses, mask, total, FramesIn(i, loop))
    {
      for j := 0 to loop
        invariant SameEdges(frame[..], FrameStart(pace))
        invariant file.bytes == old(file.bytes) + Frames(pace, poses, mask, total, FramesIn(i, loop) + j)
      {
        PoseNumber(i, j, loop);
        OneMoreFrame(pace, poses, mask, total, FramesIn(i, loop) + j);
        FramedAgain(frame[..], FrameStart(pace), poses[j], mask, FramesIn(i, loop) + j + 1, total);
        CreateMotionFrame(frame, poses[j], mask, i * loop + j + 1, total, file);
      }
      assert FramesIn(i, loop) + loop == FramesIn(i + 1, loop);
      i := i + 1;
    }
  }

  lemma Itself(f: seq<byte>)
    requires |f| == FRAME
    ensures SameEdges(f, f)
  {
  }

  lemma NoFrames(speed: byte, poses: seq<string>, mask: nat, total: int)
    requires poses != []
    ensures Frames(speed, poses, mask, total, 0) == [] && FramesIn(0, |poses|) == 0
  {
  }

  lemma OneMoreFrame(speed: byte, poses: seq<string>, mask: nat, total: int, n: nat)
    requires poses != []
    ensures Frames(speed, poses, mask, total, n + 1)
         == Frames(speed, poses, mask, total, n) + Framed(FrameStart(speed), poses[n % |poses|], mask, n + 1, total)
  {
  }

  lemma PoseNumber(i: nat, j: nat, loop: nat)
    requires j < loop
    ensures (FramesIn(i, loop) + j) % loop == j
  {
    DivMod(FramesIn(i, loop) + j, i, j, loop);
  }

  method WriteTail(frame: array<byte>, time: int, file: File)
    requires frame.Length == FRAME
    modifies frame, file
    ensures file.bytes == old(file.bytes) + FileTail(time)
  {
    for k := 0 to FRAME
      invariant file.bytes == old(file.bytes) && forall i | 0 <= i < k :: frame[i] == 0
    {
      frame[k] := 0;
    }
    frame[29] := time % 256;
    frame[30] := time / 0x100 % 256;
    frame[31] := time / 0x1_0000 % 256;
    frame[32] := time / 0x100_0000 % 256;
    assert time / 0x1_0000 / 256 == time / 0x100_0000;
    assert frame[..] == FileTail(time);
    file.Write(frame);
  }

  // ---------- what a motion file is ----------

  /** Frame `n` is the record behind the head and the frames before it. */
  lemma {:induction false} FrameInFrames(speed: byte, poses: seq<string>, mask: nat, total: int, k: nat, n: nat)
    requires poses != [] && 1 <= k <= n
    ensures FRAME * k <= |Frames(speed, poses, mask, total, n)|
    ensures Frames(speed, poses, mask, total, n)[FRAME * (k - 1)..FRAME * k]
         == Framed(FrameStart(speed), poses[(k - 1) % |poses|], mask, k, total)
    decreases n
  {
    hide Framed, FrameStart;
    if k < n {
      FrameInFrames(speed, poses, mask, total, k, n - 1);
      var before := Frames(speed, poses, mask, total, n - 1);
      assert Frames(speed, poses, mask, total, n)[..|before|] == before;
      assert Frames(speed, poses, mask, total, n)[FRAME * (k - 1)..FRAME * k] == before[FRAME * (k - 1)..FRAME * k];
    }
  }

  /** A number from its bytes, the lowest first. */
  function Little(b: seq<byte>): nat {
    if b == [] then 0 else Little(b[1..]) * 256 + b[0]
  }

  lemma LittleTwo(n: nat)
    requires n <= 0xFFFF
    ensures Little([Low(n), High(n)]) == n
  {
    assert [Low(n), High(n)][1..] == [High(n)] && [High(n)][1..] == [];
    assert Little([High(n)]) == High(n);
  }

  /** A frame as a reader of the file sees it. */
  ghost predicate GoodFrame(f: seq<byte>, speed: byte, angle: string, mask: nat, number: nat, total: nat) {
    && |f| == FRAME
    && f[0] == 0xFB && f[1] == 0xBF && f[2] == 0x01 && f[32] == 0xED
    && f[28] == f[30] == speed && f[29] == 0
    && Little(f[4..6]) == total && Little(f[6..8]) == number
    && (f[3] == if number == 1 then 1 else if number == total then 3 else 2)
    && f[31] == Sum(f[2..31]) % 256
    && forall i: nat | i < 20 :: f[8 + i] == PoseByte(angle, mask, i)
  }

  lemma FrameIsGood(speed: byte, angle: string, mask: nat, number: nat, total: nat)
    requires 1 <= number <= total <= 0xFFFF
    ensures GoodFrame(Framed(FrameStart(speed), angle, mask, number, total), speed, angle, mask, number, total)
  {
    hide PoseByte, Sum;
    var start, f := FrameStart(speed), Framed(FrameStart(speed), angle, mask, number, total);
    var b := Body(start, angle, mask, number, total);
    assert f[..31] == b && f[2..31] == b[2..];
    assert start[..3] == [0xFB, 0xBF, 1] && start[28..31] == [speed, 0, speed];
    assert f[..3] == start[..3] && f[28..31] == start[28..31];
    assert f[8..28] == Pose(angle, mask);
    LittleTwo(total);
    LittleTwo(number);
    assert f[4..6] == [Low(total), High(total)] && f[6..8] == [Low(number), High(number)];
    forall i: nat | i < 20
      ensures f[8 + i] == PoseByte(angle, mask, i)
    {
      assert f[8 + i] == f[8..28][i];
    }
  }

  /** The record of the file with this number; the head is number 0. */
  function Record(file: seq<byte>, k: nat): seq<byte> {
    if FRAME * (k + 1) <= |file| then file[FRAME * k..FRAME * (k + 1)] else []
  }

  ghost predicate GoodTail(t: seq<byte>, time: nat) {
    |t| == FRAME && t[..29] == Zeros(29) && Little(t[29..]) == time
  }

  ghost predicate GoodFile(file: seq<byte>, speed: byte, poses: seq<string>, mask: nat, total: nat, time: nat)
    requires poses != []
  {
    && |file| == FRAME * (total + 2)
    && Record(file, 0) == Zeros(FRAME)
    && (forall k: nat | 1 <= k <= total ::
         GoodFrame(Record(file, k), speed, poses[(k - 1) % |poses|], mask, k, total))
    && GoodTail(Record(file, total + 1), time)
  }

  /**
   A motion file is a head of zeros, the frames 1 to `total` in order, and a tail that holds the running time; the
   number of frames is in every frame. There is one start frame; there is one end frame if and only if there is more
   than one frame.
   */
  lemma MotionFileIsGood(speed: byte, poses: seq<string>, mask: nat, total: nat)
    requires poses != [] && 1 <= total <= 0xFFFF && speed <= 65
    ensures total * speed * 20 >= 0
    ensures GoodFile(MotionFile(speed, poses, mask, total), speed, poses, mask, total, total * speed * 20)
  {
    hide Frames, FileTail, GoodFrame, GoodTail;
    var time := total * speed * 20;
    TailTime(total, speed);
    var frames, tail := Frames(speed, poses, mask, total, total), FileTail(time);
    var file := MotionFile(speed, poses, mask, total);
    assert file == Zeros(FRAME) + frames + tail;
    forall k: nat | 1 <= k <= total
      ensures GoodFrame(Record(file, k), speed, poses[(k - 1) % |poses|], mask, k, total)
    {
      FrameInFrames(speed, poses, mask, total, k, total);
      FrameIsGood(speed, poses[(k - 1) % |poses|], mask, k, total);
      assert Record(file, k) == frames[FRAME * (k - 1)..FRAME * k];
    }
    assert Record(file, 0) == Zeros(FRAME) && Record(file, total + 1) == tail;
  }

  lemma TailTime(total: nat, speed: nat)
    requires total <= 0xFFFF && speed <= 65
    ensures var time := total * speed * 20; time >= 0 && GoodTail(FileTail(time), time)
  {
    NotNegative(total, speed);
    NotNegative(0xFFFF - total, speed);
    assert (0xFFFF - total) * speed == 0xFFFF * speed - total * speed;
    LittleFour(total * speed * 20);
    assert FileTail(total * speed * 20)[..29] == Zeros(29);
  }

  lemma LittleMore(b: seq<byte>, low: byte)
    ensures Little([low] + b) == Little(b) * 256 + low
  {
    assert ([low] + b)[1..] == b;
  }

  lemma LittleFour(time: nat)
    requires time < 0x1_0000_0000
    ensures Little(FileTail(time)[29..]) == time
  {
    hide Little;
    var high := time / 0x1_0000;
    var top := [Low(high), High(high)];
    LittleTwo(high);
    LittleMore(top, High(time));
    LittleMore([High(time)] + top, Low(time));
    assert FileTail(time)[29..] == [Low(time)] + ([High(time)] + top);
    FourBytes(time);
  }

  lemma FourBytes(time: nat)
    ensures time == (time / 0x1_0000 * 256 + High(time)) * 256 + Low(time)
  {
    assert time / 256 / 256 == time / 0x1_0000;
  }

  // ---------- the two encoders of a pose ----------

  lemma NoHighBit(mask: nat, i: nat)
    requires mask < 0x2_0000 && i >= MAX_SERVO_NUM
    ensures !Bit(mask, i)
  {
    assert Exp2(10) == 1024;
    assert Exp2(17) == 0x2_0000;
    SmallBits(mask, 17, i);
  }

  /**
   Sending a pose as text and putting it into a motion frame are the same: for a servo in the mask both give the number
   that the pair of its rank denotes, for any other 255, and the frame gives 255 beyond the seventeen servos.
   */
  lemma EncodersAgree(mask: nat, angle: string, i: nat)
    requires mask < 0x2_0000 && AllHexDigits(angle) && 2 * Rank(mask, MAX_SERVO_NUM) <= |angle| && i < 20
    ensures i >= MAX_SERVO_NUM ==> PoseByte(angle, mask, i) == 0xFF
    ensures i < MAX_SERVO_NUM ==>
      var r := 2 * Rank(mask, i);
      && PoseByte(angle, mask, i) == GetAngle(ScatteredText(mask, angle, MAX_SERVO_NUM), i + 1)
      && (Bit(mask, i) ==> r + 2 <= |angle| && PoseByte(angle, mask, i) == HexMagnitude(angle[r..r + 2]))
      && (!Bit(mask, i) ==> PoseByte(angle, mask, i) == 0xFF)
  {
    hide GetAngle, ScatteredText, StrToL, HexMagnitude, IsHexDigit, PlaceOrNone, Bit;
    if i < MAX_SERVO_NUM {
      var r := 2 * Rank(mask, i);
      ScatteredAngle(mask, angle, i);
      RankGrows(mask, i, MAX_SERVO_NUM);
      if Bit(mask, i) {
        HexPair(angle[r], angle[r + 1]);
        PairIsMagnitude(angle[r], angle[r + 1]);
        assert angle[r..r + 2] == [angle[r], angle[r + 1]];
      }
    } else {
      NoHighBit(mask, i);
    }
  }
}
