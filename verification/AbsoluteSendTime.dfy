/**
 The absolute send time of RTPHeaderExtension (api/rtp_headers.h): a 24-bit counter of 2^-18 second ticks,
 its wrap-around difference by shift, cast and shift, and the conversion to whole microseconds.
 Machine integers are written out: unsigned subtraction and shift wrap at 2^32, the cast reinterprets,
 division truncates toward zero.
 */
module AbsoluteSendTime {

  const ABS_SEND_TIME_FRACTION := 18
  const TICKS_PER_SECOND := 0x4_0000          // 1 << ABS_SEND_TIME_FRACTION
  const STAMPS := 0x100_0000                  // 1 << 24
  const MICROS_PER_WRAP := 64_000_000         // 2^24 ticks

  type Stamp = s: int | 0 <= s < STAMPS

  function Wrap32(x: int): (u: int)
    ensures 0 <= u < 0x1_0000_0000
  {
    x % 0x1_0000_0000
  }

  /** static_cast<int32_t> of a uint32_t. */
  function AsSigned32(u: int): (i: int)
    requires 0 <= u < 0x1_0000_0000
    ensures -0x8000_0000 <= i < 0x8000_0000
  {
    if u < 0x8000_0000 then u else u - 0x1_0000_0000
  }

  /** C++ division of signed integers. */
  function Truncate(a: int, b: int): int
    requires b > 0
  {
    if a >= 0 then a / b else -(-a / b)
  }

  /** An arithmetic right shift by 8 rounds down; `/` does. */
  function TickDelta(current: Stamp, previous: Stamp): int {
    AsSigned32(Wrap32(Wrap32(current - previous) * 256)) / 256
  }

  function Micros(ticks: int): int {
    Truncate(ticks * 1_000_000, TICKS_PER_SECOND)
  }

  function GetAbsoluteSendTimestamp(absoluteSendTime: Stamp): int {
    Micros(absoluteSendTime)
  }

  function GetAbsoluteSendTimeDelta(absoluteSendTime: Stamp, previousSendTime: Stamp): int {
    Micros(TickDelta(absoluteSendTime, previousSendTime))
  }

  predicate InHalfRange(d: int) {
    -0x80_0000 <= d < 0x80_0000
  }

  /** The shifts pick the one representative of the stamp difference modulo 2^24 in the half range. */
  lemma {:induction false} TickDeltaIsNearest(a: Stamp, b: Stamp)
    ensures InHalfRange(TickDelta(a, b))
    ensures (TickDelta(a, b) - (a - b)) % STAMPS == 0
    ensures forall d :: InHalfRange(d) && (d - (a - b)) % STAMPS == 0 ==> d == TickDelta(a, b)
  {
    var d := if a - b >= 0x80_0000 then a - b - STAMPS else if a - b < -0x80_0000 then a - b + STAMPS else a - b;
    ShiftsUnwrap(a - b, d);
    forall e | InHalfRange(e) && (e - (a - b)) % STAMPS == 0 ensures e == d {
    }
  }

  lemma {:induction false} ShiftsUnwrap(x: int, d: int)
    requires -STAMPS < x < STAMPS && InHalfRange(d) && (d == x || d == x - STAMPS || d == x + STAMPS)
    ensures AsSigned32(Wrap32(Wrap32(x) * 256)) / 256 == d
  {
    var shifted := Wrap32(Wrap32(x) * 256);
    assert Wrap32(x) == if x < 0 then x + 0x1_0000_0000 else x;
    assert shifted == if d >= 0 then d * 256 else d * 256 + 0x1_0000_0000 by {
      var q := if x < 0 then 0x100 else 0;
      assert Wrap32(x) * 256 == x * 256 + q * 0x1_0000_0000;
      Reduce(x * 256, q);
      var k := if d == x then 0 else if d == x - STAMPS then -1 else 1;
      assert x * 256 == d * 256 - k * 0x1_0000_0000;
      Reduce(d * 256, -k);
    }
  }

  lemma {:induction false} Reduce(x: int, q: int)
    ensures Wrap32(x + q * 0x1_0000_0000) == Wrap32(x)
  {
  }

  // ---- Unwrapping ----

  /** The stamp that a sender writes at the given tick of its clock. */
  function StampAt(tick: int): Stamp {
    tick % STAMPS
  }

  /** The delta of two stamps is the elapsed time exactly when that time is in the half range. */
  lemma {:induction false} DeltaIsElapsed(now: int, earlier: int)
    ensures TickDelta(StampAt(now), StampAt(earlier)) == now - earlier <==> InHalfRange(now - earlier)
  {
    var a, b := StampAt(now), StampAt(earlier);
    TickDeltaIsNearest(a, b);
    if InHalfRange(now - earlier) {
      SameResidue(now, earlier);
    }
  }

  lemma {:induction false} SameResidue(x: int, y: int)
    ensures (x - y - (StampAt(x) - StampAt(y))) % STAMPS == 0
  {
    var q := x / STAMPS - y / STAMPS;
    assert x - y - (StampAt(x) - StampAt(y)) == q * STAMPS;
  }

  predicate StepsInHalfRange(ticks: seq<int>) {
    forall i :: 0 < i < |ticks| ==> InHalfRange(ticks[i] - ticks[i - 1])
  }

  function TickDeltaSum(ticks: seq<int>): int {
    if |ticks| < 2 then 0
    else TickDeltaSum(ticks[..|ticks| - 1]) + TickDelta(StampAt(ticks[|ticks| - 1]), StampAt(ticks[|ticks| - 2]))
  }

  function MicrosDeltaSum(ticks: seq<int>): int {
    if |ticks| < 2 then 0
    else
      MicrosDeltaSum(ticks[..|ticks| - 1])
      + GetAbsoluteSendTimeDelta(StampAt(ticks[|ticks| - 1]), StampAt(ticks[|ticks| - 2]))
  }

  /** However often the counter wraps, the deltas of successive stamps add up to the elapsed ticks. */
  lemma {:induction false} DeltasUnwrap(ticks: seq<int>)
    requires |ticks| > 0 && StepsInHalfRange(ticks)
    ensures TickDeltaSum(ticks) == ticks[|ticks| - 1] - ticks[0]
  {
    if |ticks| > 1 {
      var front := ticks[..|ticks| - 1];
      forall i | 0 < i < |front| ensures InHalfRange(front[i] - front[i - 1]) {
        assert front[i] == ticks[i] && front[i - 1] == ticks[i - 1];
      }
      DeltasUnwrap(front);
      DeltaIsElapsed(ticks[|ticks| - 1], ticks[|ticks| - 2]);
    }
  }

  // ---- Rounding, in units of 2^-18 microseconds ----

  function Abs(x: int): nat {
    if x < 0 then -x else x
  }

  lemma {:induction false} MicrosRounds(ticks: int)
    ensures Abs(Micros(ticks) * TICKS_PER_SECOND - ticks * 1_000_000) < TICKS_PER_SECOND
    ensures ticks >= 0 ==> 0 <= Micros(ticks) && Micros(ticks) * TICKS_PER_SECOND <= ticks * 1_000_000
    ensures ticks < 0 ==> Micros(ticks) <= 0 && Micros(ticks) * TICKS_PER_SECOND >= ticks * 1_000_000
  {
    var a := Abs(ticks) * 1_000_000;
    assert a == a / TICKS_PER_SECOND * TICKS_PER_SECOND + a % TICKS_PER_SECOND;
  }

  /** A timestamp is the whole microseconds of the stamp, a 2^18th of a second each. */
  lemma {:induction false} TimestampIsFloor(a: Stamp)
    ensures GetAbsoluteSendTimestamp(a) * 0x4_0000 <= a * 1_000_000 < (GetAbsoluteSendTimestamp(a) + 1) * 0x4_0000
  {
    MicrosRounds(a);
  }

  /** n converted deltas are off by less than n microseconds in total. */
  lemma {:induction false} RoundingAddsUp(ticks: seq<int>)
    requires |ticks| > 0 && StepsInHalfRange(ticks)
    ensures var elapsed, n := ticks[|ticks| - 1] - ticks[0], |ticks| - 1;
            if n == 0 then MicrosDeltaSum(ticks) == 0
            else Abs(MicrosDeltaSum(ticks) * TICKS_PER_SECOND - elapsed * 1_000_000) < n * TICKS_PER_SECOND
  {
    if |ticks| > 1 {
      var front := ticks[..|ticks| - 1];
      forall i | 0 < i < |front| ensures InHalfRange(front[i] - front[i - 1]) {
        assert front[i] == ticks[i] && front[i - 1] == ticks[i - 1];
      }
      RoundingAddsUp(front);
      DeltaIsElapsed(ticks[|ticks| - 1], ticks[|ticks| - 2]);
      MicrosRounds(ticks[|ticks| - 1] - ticks[|ticks| - 2]);
    }
  }

  /** A converted delta and the difference of the converted stamps agree to a microsecond, modulo the wrap. */
  lemma {:induction false} DeltaMatchesTimestamps(a: Stamp, b: Stamp) returns (wraps: int)
    ensures -1 <= wraps <= 1
    ensures Abs(GetAbsoluteSendTimeDelta(a, b)
                - (GetAbsoluteSendTimestamp(a) - GetAbsoluteSendTimestamp(b)) - wraps * MICROS_PER_WRAP) <= 1
  {
    TickDeltaIsNearest(a, b);
    var d := TickDelta(a, b);
    wraps := (d - (a - b)) / STAMPS;
    assert d == a - b + wraps * STAMPS;
    MicrosRounds(d);
    MicrosRounds(a);
    MicrosRounds(b);
  }

  /** Timestamps stay below one wrap, deltas within half of one, and every product fits in 64 bits. */
  lemma {:induction false} NothingOverflows(a: Stamp, b: Stamp)
    ensures 0 <= GetAbsoluteSendTimestamp(a) < MICROS_PER_WRAP
    ensures -MICROS_PER_WRAP / 2 <= GetAbsoluteSendTimeDelta(a, b) < MICROS_PER_WRAP / 2
    ensures 0 <= a * 1_000_000 < 0x8000_0000_0000_0000
    ensures -0x8000_0000_0000_0000 <= TickDelta(a, b) * 1_000_000 < 0x8000_0000_0000_0000
  {
    TickDeltaIsNearest(a, b);
    MicrosRounds(a);
    MicrosRounds(TickDelta(a, b));
  }
}
