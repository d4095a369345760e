/** Poses as text: two hexadecimal digits for each servo, `FF` for a servo that is left alone. */
module Servo {
  import opened CText
  import opened HexDigits
  import opened PowerOfTwo

  const MAX_SERVO_NUM: nat := 17

  /** `_ubtTranslat`. */
  function Translat(c: char): int {
    if '0' <= c <= '9' then c as int - '0' as int
    else if 'a' <= c <= 'f' then c as int - 'a' as int + 10
    else if 'A' <= c <= 'F' then c as int - 'A' as int + 10
    else -1
  }

  /** A digit is translated to its place, and any other character to -1. */
  ghost function PlaceOrNone(c: char): int {
    if IsHexDigit(c) then Place(c) else -1
  }

  lemma TranslatIsPlace(c: char)
    ensures Translat(c) == PlaceOrNone(c)
  {
    if Translat(c) >= 0 {
      Digits(Translat(c));
      PlaceIs(c, Translat(c));
    }
    if IsHexDigit(c) {
      Digits(Place(c));
    }
  }

  /** The angle of two characters: for two digits the number they denote. */
  ghost function PairAngle(c: char, d: char): int {
    PlaceOrNone(c) * 16 + PlaceOrNone(d)
  }

  lemma PairIsMagnitude(c: char, d: char)
    requires IsHexDigit(c) && IsHexDigit(d)
    ensures AllHexDigits([c, d]) && PairAngle(c, d) == HexMagnitude([c, d]) < 256
  {
    TwoDigits(c, d);
  }

  /** `_ubt_getAngle` of servo `id`, counted from 1. */
  function GetAngle(all: string, id: nat): int
    requires 1 <= id
  {
    if |all| < id * 2 then 0xFF
    else Translat(all[(id - 1) * 2]) * 16 + Translat(all[(id - 1) * 2 + 1])
  }

  /** The angle of a servo is that of its two characters, and 255 where the text is too short. */
  lemma AngleIsPair(all: string, id: nat)
    requires 1 <= id
    ensures GetAngle(all, id) == if |all| < id * 2 then 255 else PairAngle(all[2 * id - 2], all[2 * id - 1])
  {
    hide PlaceOrNone;
    if |all| >= id * 2 {
      TranslatIsPlace(all[2 * id - 2]);
      TranslatIsPlace(all[2 * id - 1]);
    }
  }

  // ---------- masks ----------

  /** How many servos below number `i` (from 0) are in the mask. */
  function Rank(mask: nat, i: nat): (n: nat)
    ensures n <= i
  {
    if i == 0 then 0 else Rank(mask, i - 1) + if Bit(mask, i - 1) then 1 else 0
  }

  lemma {:induction false} RankGrows(mask: nat, i: nat, j: nat)
    requires i <= j
    ensures Rank(mask, i) <= Rank(mask, j) && (i < j && Bit(mask, i) ==> Rank(mask, i) < Rank(mask, j))
    decreases j - i
  {
    if i < j {
      RankGrows(mask, i, j - 1);
    }
  }

  // ---------- scattering pairs over a pose ----------

  const POSE_LENGTH := 2 * MAX_SERVO_NUM

  /** The pose when the first `n` servos are done: a servo in the mask has the pair of its rank, any other `FF`. */
  function ScatteredText(mask: nat, angle: string, n: nat): (all: string)
    ensures |all| == POSE_LENGTH
  {
    seq(POSE_LENGTH, k requires 0 <= k < POSE_LENGTH =>
      if k / 2 < n && Bit(mask, k / 2) then At(angle, 2 * Rank(mask, k / 2) + k % 2) else 'F')
  }

  function Untouched(): (all: string)
    ensures |all| == POSE_LENGTH && forall k | 0 <= k < POSE_LENGTH :: all[k] == 'F'
  {
    seq(POSE_LENGTH, _ => 'F')
  }

  lemma ScatterStep(mask: nat, angle: string, i: nat)
    requires i < MAX_SERVO_NUM
    ensures var r, was := 2 * Rank(mask, i), ScatteredText(mask, angle, i);
      ScatteredText(mask, angle, i + 1)
      == if Bit(mask, i) then was[2 * i := At(angle, r)][2 * i + 1 := At(angle, r + 1)] else was
  {
    hide Bit, Rank;
    assert 2 * i / 2 == i && (2 * i + 1) / 2 == i;
  }

  /** `memset` of a pose to `FF` everywhere, and its NUL. */
  method ClearPose(all: array<char>)
    requires all.Length == POSE_LENGTH + 1
    modifies all
    ensures all[..POSE_LENGTH] == Untouched() && all[POSE_LENGTH] == '\0'
  {
    for k := 0 to all.Length
      invariant forall j | 0 <= j < k :: all[j] == 'F'
    {
      all[k] := 'F';
    }
    all[POSE_LENGTH] := '\0';
  }

  /** What comes of building a pose: it is there, the text is refused, or the C code reads behind its NUL. */
  datatype Posing = Posed | Refused | Beyond

  /**
   The pose of `_ubtSetRobotServo`. It reads two characters for every servo in the mask, so that it stays inside the
   text and its NUL exactly if the text lacks no more than one of them.
   */
  method Scatter(mask: nat, angle: string, all: array<char>) returns (r: Posing)
    requires all.Length == POSE_LENGTH + 1
    modifies all
    ensures r == if angle == "" then Refused else if 2 * Rank(mask, MAX_SERVO_NUM) <= |angle| + 1 then Posed else Beyond
    ensures r == Posed ==> all[..POSE_LENGTH] == ScatteredText(mask, angle, MAX_SERVO_NUM) && all[POSE_LENGTH] == '\0'
    ensures r == Refused ==> all[..] == old(all[..])
  {
    hide Bit, Rank;
    if |angle| <= 0 {
      return Refused;
    }
    ClearPose(all);
    assert all[..POSE_LENGTH] == ScatteredText(mask, angle, 0);
    RankNone(mask);
    hide ScatteredText;
    var p := 0;
    for i := 0 to MAX_SERVO_NUM
      invariant p == 2 * Rank(mask, i) && all[POSE_LENGTH] == '\0' && p <= |angle| + 1
      invariant all[..POSE_LENGTH] == ScatteredText(mask, angle, i)
    {
      RankNext(mask, i);
      RankGrows(mask, i + 1, MAX_SERVO_NUM);
      ScatterStep(mask, angle, i);
      if Bit(mask, i) {
        if p + 1 > |angle| {
          return Beyond;
        }
        all[i * 2] := At(angle, p);
        all[i * 2 + 1] := At(angle, p + 1);
        p := p + 2;
      }
    }
    r := Posed;
  }

  lemma RankNone(mask: nat)
    ensures Rank(mask, 0) == 0
  {
  }

  lemma RankNext(mask: nat, i: nat)
    ensures Rank(mask, i + 1) == Rank(mask, i) + if Bit(mask, i) then 1 else 0
  {
  }

  /** The pose read back: a servo in the mask gives the value of its pair, any other 255. */
  lemma ScatteredAngle(mask: nat, angle: string, i: nat)
    requires i < MAX_SERVO_NUM && 2 * Rank(mask, MAX_SERVO_NUM) <= |angle|
    ensures GetAngle(ScatteredText(mask, angle, MAX_SERVO_NUM), i + 1)
         == if Bit(mask, i) then PairAngle(At(angle, 2 * Rank(mask, i)), At(angle, 2 * Rank(mask, i) + 1)) else 255
  {
    hide Bit, Rank, ScatteredText, PlaceOrNone, GetAngle;
    ScatteredPair(mask, angle, i);
    AngleIsPair(ScatteredText(mask, angle, MAX_SERVO_NUM), i + 1);
    FillerAngle();
  }

  /** `FF` is read as 255. */
  lemma FillerAngle()
    ensures PairAngle('F', 'F') == 255
  {
    PlaceIs('F', 15);
  }

  lemma ScatteredPair(mask: nat, angle: string, i: nat)
    requires i < MAX_SERVO_NUM
    ensures var all, r := ScatteredText(mask, angle, MAX_SERVO_NUM), 2 * Rank(mask, i);
      && all[2 * i] == (if Bit(mask, i) then At(angle, r) else 'F')
      && all[2 * i + 1] == (if Bit(mask, i) then At(angle, r + 1) else 'F')
  {
    hide Bit, Rank, At;
    assert 2 * i / 2 == i && (2 * i + 1) / 2 == i && 2 * i % 2 == 0 && (2 * i + 1) % 2 == 1;
  }

  // ---------- angles of single servos ----------

  /** What `"%02x"` prints for a byte: its two digits, in small letters. */
  function Hex2(n: nat): (s: string)
    requires n < 256
    ensures |s| == 2 && s[0] in LOWER && s[1] in LOWER && AllHexDigits(s) && HexMagnitude(s) == n
  {
    PlaceIs(LOWER[n / 16], n / 16);
    PlaceIs(LOWER[n % 16], n % 16);
    TwoDigits(LOWER[n / 16], LOWER[n % 16]);
    [LOWER[n / 16], LOWER[n % 16]]
  }

  /** A pose with one servo set. */
  function WithAngle(all: string, angle: nat, id: nat): string
    requires 1 <= id && 2 * id <= |all| && angle < 256
  {
    all[2 * id - 2 := Hex2(angle)[0]][2 * id - 1 := Hex2(angle)[1]]
  }

  /** `_ubtSetServoAngle`: 0 leaves the servo alone, and an angle out of range is refused. */
  method SetServoAngle(all: array<char>, angle: int, id: nat) returns (r: int)
    requires 1 <= id && 2 * id <= all.Length
    modifies all
    ensures r == if angle > 180 || angle < 0 then -1 else if angle == 0 then 1 else 0
    ensures all[..] == if 0 < angle <= 180 then WithAngle(old(all[..]), angle, id) else old(all[..])
  {
    if angle > 180 || angle < 0 {
      return -1;
    } else if angle == 0 {
      return 1;
    }
    var acAngle := Hex2(angle);
    all[(id - 1) * 2] := acAngle[0];
    all[(id - 1) * 2 + 1] := acAngle[1];
    return 0;
  }

  /** What a robot reads out of a pose for an angle that was asked for. */
  function ReadBack(angle: int): int {
    if angle == 0 then 255 else angle
  }

  /** The first `n` servos of the pose read back their angles, the others 255. */
  ghost predicate ReadsBack(all: string, angles: seq<int>, n: nat) {
    && |angles| == MAX_SERVO_NUM
    && forall id: nat | 1 <= id <= MAX_SERVO_NUM :: GetAngle(all, id) == if id <= n then ReadBack(angles[id - 1]) else 255
  }

  lemma NothingSet(angles: seq<int>)
    requires |angles| == MAX_SERVO_NUM
    ensures ReadsBack(Untouched(), angles, 0)
  {
    forall id: nat | 1 <= id <= MAX_SERVO_NUM
      ensures GetAngle(Untouched(), id) == 255
    {
    }
  }

  lemma OneMoreSet(all: string, angles: seq<int>, n: nat)
    requires ReadsBack(all, angles, n) && n < MAX_SERVO_NUM && |all| == POSE_LENGTH && 0 <= angles[n] <= 180
    ensures ReadsBack(if angles[n] == 0 then all else WithAngle(all, angles[n], n + 1), angles, n + 1)
  {
    hide GetAngle, WithAngle;
    var now := if angles[n] == 0 then all else WithAngle(all, angles[n], n + 1);
    NoOtherServo(all, angles[n], n + 1);
    forall id: nat | 1 <= id <= MAX_SERVO_NUM
      ensures GetAngle(now, id) == if id <= n + 1 then ReadBack(angles[id - 1]) else 255
    {
      assert GetAngle(all, id) == if id <= n then ReadBack(angles[id - 1]) else 255;
    }
  }

  /**
   The pose `ubtSetRobotServo` builds, one call after another for servo 1 to 17. It is refused exactly when an angle
   is out of range; otherwise each servo reads back its own angle, with 255 for the angle 0.
   */
  method BuildPose(angles: seq<int>, all: array<char>) returns (ok: bool)
    requires |angles| == MAX_SERVO_NUM && all.Length == POSE_LENGTH + 1
    modifies all
    ensures ok <==> forall i | 0 <= i < MAX_SERVO_NUM :: 0 <= angles[i] <= 180
    ensures ok ==> all[POSE_LENGTH] == '\0' && ReadsBack(all[..POSE_LENGTH], angles, MAX_SERVO_NUM)
  {
    hide GetAngle, ReadBack, WithAngle, ReadsBack;
    ClearPose(all);
    NothingSet(angles);
    for i := 0 to MAX_SERVO_NUM
      invariant all[POSE_LENGTH] == '\0' && forall j | 0 <= j < i :: 0 <= angles[j] <= 180
      invariant ReadsBack(all[..POSE_LENGTH], angles, i)
    {
      ghost var was := all[..];
      var r := SetServoAngle(all, angles[i], i + 1);
      if r < 0 {
        return false;
      }
      OneMoreSet(was[..POSE_LENGTH], angles, i);
      if angles[i] != 0 {
        WithinPose(was, angles[i], i + 1);
      }
      assert all[POSE_LENGTH] == all[..][POSE_LENGTH];
      assert all[..POSE_LENGTH] == all[..][..POSE_LENGTH];
    }
    return true;
  }

  lemma WithinPose(all: string, angle: nat, id: nat)
    requires |all| == POSE_LENGTH + 1 && 1 <= id && 2 * id <= POSE_LENGTH && angle < 256
    ensures var now := WithAngle(all, angle, id);
      |now| == |all| && now[POSE_LENGTH] == all[POSE_LENGTH] && now[..POSE_LENGTH] == WithAngle(all[..POSE_LENGTH], angle, id)
  {
  }

  /** Setting a servo is read back for that servo and disturbs no other. */
  lemma NoOtherServo(all: string, angle: nat, id: nat)
    requires 1 <= id && 2 * id <= |all| && angle < 256
    ensures GetAngle(WithAngle(all, angle, id), id) == angle
    ensures forall other: nat | 1 <= other && other != id :: GetAngle(WithAngle(all, angle, id), other) == GetAngle(all, other)
  {
    var pair, now := Hex2(angle), WithAngle(all, angle, id);
    assert pair == [pair[0], pair[1]];
    PairIsMagnitude(pair[0], pair[1]);
    hide Hex2, PlaceOrNone, Translat;
    assert now[2 * id - 2] == pair[0] && now[2 * id - 1] == pair[1];
    AngleIsPair(now, id);
  }
}
