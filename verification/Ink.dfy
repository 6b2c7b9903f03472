/** Quantization of coordinates, sizes, rotations and pressures. */
module Quantization {
  import opened Wire
  import opened Wrappers

  const MIN_INT32 := -0x8000_0000
  const MAX_INT32 := 0x7fff_ffff
  const MAX_UINT32 := 0xffff_ffff

  /** JavaScript's rounding: halves go toward positive infinity. */
  function RoundLikeJavaScript(value: real): int {
    (value + 0.5).Floor
  }

  /** A coordinate in quarter units. */
  function Quarters(value: real): int {
    RoundLikeJavaScript(value / 0.25)
  }

  function QuantizedSigned(value: real): Option<int32> {
    var q := Quarters(value);
    if q < MIN_INT32 || q > MAX_INT32 then None else Some(q)
  }

  function QuantizedUnsigned(value: real): Option<uint32> {
    var q := Quarters(value);
    if q < 0 || q > MAX_UINT32 then None else Some(q)
  }

  function QuantizedRotation(value: real): Option<int32> {
    var q := RoundLikeJavaScript(value * 100.0);
    if q < MIN_INT32 || q > MAX_INT32 then None else Some(q)
  }

  function Dequantize(q: int): real {
    q as real * 0.25
  }

  function DequantizeRotation(q: int): real {
    q as real / 100.0
  }

  function Clamp01(value: real): real {
    if value < 0.0 then 0.0 else if value > 1.0 then 1.0 else value
  }

  /** Go's rounding on a non-negative value: halves go up. */
  function PressureByte(value: real): byte {
    (Clamp01(value) * 255.0 + 0.5).Floor
  }

  /** 128 stands for the neutral pressure of a device without a sensor. */
  function PressureOf(value: byte): real {
    if value == 128 then 0.5 else value as real / 255.0
  }

  function Distance(a: real, b: real): real {
    if a < b then b - a else a - b
  }

  /** No grid value is changed by a second pass through the quantizer. */
  lemma QuantizeAfterDequantize(q: int)
    ensures Quarters(Dequantize(q)) == q
    ensures RoundLikeJavaScript(DequantizeRotation(q) * 100.0) == q
  {
    assert Dequantize(q) / 0.25 == q as real;
    assert DequantizeRotation(q) * 100.0 == q as real;
    assert (q as real + 0.5).Floor == q;
  }

  lemma PressureByteAfterPressureOf(b: byte)
    ensures PressureByte(PressureOf(b)) == b
  {
    if b != 128 {
      assert Clamp01(b as real / 255.0) * 255.0 == b as real;
    }
  }

  /** A coordinate moves by at most half of a quarter unit. */
  lemma QuantizationError(value: real)
    ensures Distance(Dequantize(Quarters(value)), value) <= 0.125
  {
    var q := Quarters(value);
    assert q as real <= value / 0.25 + 0.5 < q as real + 1.0;
  }

  /** A pressure moves by less than 1/255 of the value clamped to [0, 1]. */
  lemma PressureError(value: real)
    ensures Distance(PressureOf(PressureByte(value)), Clamp01(value)) < 1.0 / 255.0
  {
    var b := PressureByte(value);
    assert b as real <= Clamp01(value) * 255.0 + 0.5 < b as real + 1.0;
  }

  /** Neutral pressure, and everything at or beyond the ends of the scale, arrives exactly. */
  lemma ExactPressures(value: real)
    ensures value == 0.5 ==> PressureOf(PressureByte(value)) == 0.5
    ensures value <= 0.0 ==> PressureOf(PressureByte(value)) == 0.0
    ensures value >= 1.0 ==> PressureOf(PressureByte(value)) == 1.0
  {
  }

  /** A rotation moves by at most half of a hundredth. */
  lemma RotationError(value: real)
    ensures Distance(DequantizeRotation(RoundLikeJavaScript(value * 100.0)), value) <= 0.005
  {
    var q := RoundLikeJavaScript(value * 100.0);
    assert q as real <= value * 100.0 + 0.5 < q as real + 1.0;
  }

  /** Which coordinates, sizes and rotations are not refused. */
  lemma EncodableRanges(value: real)
    ensures QuantizedSigned(value).Some? <==> -536870912.125 <= value < 536870911.875
    ensures QuantizedUnsigned(value).Some? <==> -0.125 <= value < 1073741823.875
    ensures QuantizedRotation(value).Some? <==> -21474836.485 <= value < 21474836.475
  {
  }
}

/** Live ink: delta-coded points with optional pressures and times. */
module Ink {
  import opened Wire
  import opened Wrappers
  import opened Quantization

  const MAX_INK_POINTS := 4096
  const FLAG_HAS_PRESSURE: byte := 0x01
  const FLAG_HAS_TIME: byte := 0x02

  datatype InkPoint = InkPoint(x: real, y: real, pressure: Option<real>, t: Option<uint32>)

  datatype InkPayload = InkPayload(strokeId: Text, points: seq<InkPoint>)

  // ---------------------------------------------------------------- what is written

  predicate HasPressure(points: seq<InkPoint>) {
    points != [] && forall i | 0 <= i < |points| :: points[i].pressure.Some?
  }

  predicate HasTime(points: seq<InkPoint>) {
    points != [] && forall i | 0 <= i < |points| :: points[i].t.Some?
  }

  predicate Fits(p: InkPoint) {
    QuantizedSigned(p.x).Some? && QuantizedSigned(p.y).Some?
  }

  predicate AllFit(points: seq<InkPoint>) {
    forall i | 0 <= i < |points| :: Fits(points[i])
  }

  predicate Pressured(points: seq<InkPoint>, on: bool) {
    on ==> forall i | 0 <= i < |points| :: points[i].pressure.Some?
  }

  predicate Timed(points: seq<InkPoint>) {
    forall i | 0 <= i < |points| :: points[i].t.Some?
  }

  /** The payloads the encoder does not refuse. */
  predicate Encodable(p: InkPayload) {
    p.strokeId != [] && |p.points| <= MAX_INK_POINTS && AllFit(p.points)
  }

  function PressureBytes(p: InkPoint, on: bool): seq<byte>
    requires on ==> p.pressure.Some?
  {
    if on then [PressureByte(p.pressure.value)] else []
  }

  function PointBytes(p: InkPoint, px: int32, py: int32, on: bool): (s: seq<byte>)
    requires Fits(p) && (on ==> p.pressure.Some?)
  {
    SvarintBytes(WrapInt32(Quarters(p.x) - px))
    + SvarintBytes(WrapInt32(Quarters(p.y) - py))
    + PressureBytes(p, on)
  }

  /** Points as int32 deltas from the previous point. */
  function PointsBytes(points: seq<InkPoint>, px: int32, py: int32, on: bool): seq<byte>
    requires AllFit(points) && Pressured(points, on)
  {
    if points == [] then []
    else
      assert Fits(points[0]);
      PointBytes(points[0], px, py, on)
      + PointsBytes(points[1..], Quarters(points[0].x), Quarters(points[0].y), on)
  }

  function Later(t: uint32, previous: uint32): uint32 {
    if t > previous then t else previous
  }

  /** Times as deltas from the largest time so far. */
  function TimesBytes(points: seq<InkPoint>, previous: uint32): seq<byte>
    requires Timed(points)
  {
    if points == [] then []
    else
      var latest := Later(points[0].t.value, previous);
      VarintBytes(latest - previous) + TimesBytes(points[1..], latest)
  }

  function InkFlags(points: seq<InkPoint>): byte {
    (if HasPressure(points) then FLAG_HAS_PRESSURE else 0)
    + (if HasTime(points) then FLAG_HAS_TIME else 0)
  }

  function TimesSection(points: seq<InkPoint>): seq<byte> {
    if HasTime(points) then TimesBytes(points, 0) else []
  }

  function InkBytes(p: InkPayload): seq<byte>
    requires Encodable(p)
  {
    StringBytes(p.strokeId)
    + VarintBytes(|p.points|)
    + PointsBytes(p.points, 0, 0, HasPressure(p.points))
    + TimesSection(p.points)
  }

  // ------------------------------------------------------------------- what is read

  function ParsePressure(s: seq<byte>, on: bool): (p: Parse<Option<real>>) {
    if !on then Parsed(None, s)
    else if s == [] then Malformed
    else Parsed(Some(PressureOf(s[0])), s[1..])
  }

  /** A point still in grid units. */
  datatype GridPoint = GridPoint(x: int32, y: int32, pressure: Option<real>) {
    function ToInk(): InkPoint {
      InkPoint(Dequantize(x), Dequantize(y), pressure, None)
    }
  }

  function ParsePoint(s: seq<byte>, x: int32, y: int32, on: bool): (p: Parse<GridPoint>)
    ensures p.Parsed? ==> |p.rest| + 2 <= |s|
  {
    var (dx, s1) :- ParseSvarint(s);
    var (dy, s2) :- ParseSvarint(s1);
    var (pressure, s3) :- ParsePressure(s2, on);
    Parsed(GridPoint(WrapInt32(x + dx), WrapInt32(y + dy), pressure), s3)
  }

  function ParsePoints(s: seq<byte>, count: nat, x: int32, y: int32, on: bool): (p: Parse<seq<InkPoint>>)
    ensures p.Parsed? ==> |p.value| == count && |p.rest| + 2 * count <= |s|
    decreases count
  {
    if count == 0 then Parsed([], s)
    else
      var (point, s1) :- ParsePoint(s, x, y, on);
      var (tail, s2) :- ParsePoints(s1, count - 1, point.x, point.y, on);
      Parsed([point.ToInk()] + tail, s2)
  }

  function ParseTimes(s: seq<byte>, count: nat, t: uint32): (p: Parse<seq<uint32>>)
    ensures p.Parsed? ==> |p.value| == count && |p.rest| <= |s|
    decreases count
  {
    if count == 0 then Parsed([], s)
    else
      var (delta, s1) :- ParseVarint(s);
      var next := WrapUint32(t + delta);
      var (tail, s2) :- ParseTimes(s1, count - 1, next);
      Parsed([next] + tail, s2)
  }

  function WithTimes(points: seq<InkPoint>, times: seq<uint32>): (r: seq<InkPoint>)
    requires |points| == |times|
    ensures |r| == |points|
    ensures forall i | 0 <= i < |points| :: r[i] == points[i].(t := Some(times[i]))
  {
    seq(|points|, i requires 0 <= i < |points| => points[i].(t := Some(times[i])))
  }

  function ParseTimedPoints(s: seq<byte>, count: nat, flags: byte): (p: Parse<seq<InkPoint>>)
    ensures p.Parsed? ==> |p.value| == count && |p.rest| + 2 * count <= |s|
  {
    var (points, s1) :- ParsePoints(s, count, 0, 0, HasFlag(flags, FLAG_HAS_PRESSURE));
    if !HasFlag(flags, FLAG_HAS_TIME) then Parsed(points, s1)
    else
      var (times, s2) :- ParseTimes(s1, count, 0);
      Parsed(WithTimes(points, times), s2)
  }

  function ParseInk(s: seq<byte>, flags: byte): (p: Parse<InkPayload>)
    ensures p.Parsed? ==> |p.value.points| <= MAX_INK_POINTS
    ensures p.Parsed? ==> |p.rest| + 2 * |p.value.points| + 3 <= |s|
  {
    var (strokeId, s1) :- ParseString(s);
    if strokeId == [] then Malformed
    else
      var (count, s2) :- ParseVarint(s1);
      if count > MAX_INK_POINTS then Malformed
      else
        var (points, s3) :- ParseTimedPoints(s2, count, flags);
        Parsed(InkPayload(strokeId, points), s3)
  }

  // ------------------------------------------------------- what the receiver gets

  /** A point after one trip over the wire, its time apart. */
  function ReceivedPoint(p: InkPoint, on: bool): InkPoint
    requires on ==> p.pressure.Some?
  {
    InkPoint(Dequantize(Quarters(p.x)), Dequantize(Quarters(p.y)),
             if on then Some(PressureOf(PressureByte(p.pressure.value))) else None, None)
  }

  function ReceivedPoints(points: seq<InkPoint>, on: bool): (r: seq<InkPoint>)
    requires Pressured(points, on)
    ensures |r| == |points|
    ensures forall i | 0 <= i < |points| :: r[i] == ReceivedPoint(points[i], on)
  {
    seq(|points|, i requires 0 <= i < |points| => ReceivedPoint(points[i], on))
  }

  function RunningMax(points: seq<InkPoint>, previous: uint32): (r: seq<uint32>)
    requires Timed(points)
    ensures |r| == |points|
  {
    if points == [] then []
    else
      var latest := Later(points[0].t.value, previous);
      [latest] + RunningMax(points[1..], latest)
  }

  function Received(p: InkPayload): InkPayload {
    var seen := ReceivedPoints(p.points, HasPressure(p.points));
    InkPayload(p.strokeId,
               if HasTime(p.points) then WithTimes(seen, RunningMax(p.points, 0)) else seen)
  }

  // ----------------------------------------------------------------- round trips

  lemma WrappedDelta(x: int32, previous: int32)
    ensures WrapInt32(previous + WrapInt32(x - previous)) == x
  {
  }

  lemma PointRoundTrip(p: InkPoint, px: int32, py: int32, on: bool, rest: seq<byte>)
    requires Fits(p) && (on ==> p.pressure.Some?)
    ensures ParsePoint(PointBytes(p, px, py, on) + rest, px, py, on)
         == Parsed(GridPoint(Quarters(p.x), Quarters(p.y), ReceivedPoint(p, on).pressure), rest)
  {
    hide SvarintBytes, ParseSvarint, WrapInt32, PressureByte, PressureOf;
    var dx, dy := WrapInt32(Quarters(p.x) - px), WrapInt32(Quarters(p.y) - py);
    var s2 := PressureBytes(p, on) + rest;
    var s1 := SvarintBytes(dy) + s2;
    assert PointBytes(p, px, py, on) + rest == SvarintBytes(dx) + s1;
    SvarintRoundTrip(dx, s1);
    SvarintRoundTrip(dy, s2);
    WrappedDelta(Quarters(p.x), px);
    WrappedDelta(Quarters(p.y), py);
    assert s2 == (if on then [PressureByte(p.pressure.value)] + rest else rest);
  }

  lemma {:induction false} PointsRoundTrip(points: seq<InkPoint>, px: int32, py: int32, on: bool, rest: seq<byte>)
    requires AllFit(points) && Pressured(points, on)
    ensures ParsePoints(PointsBytes(points, px, py, on) + rest, |points|, px, py, on)
         == Parsed(ReceivedPoints(points, on), rest)
  {
    hide PointBytes, ParsePoint, Quarters, QuantizedSigned, PressureByte, PressureOf;
    if points == [] {
      assert PointsBytes(points, px, py, on) + rest == rest;
    } else {
      var p := points[0];
      assert Fits(p);
      var x, y := QuantizedSigned(p.x).value, QuantizedSigned(p.y).value;
      assert x == Quarters(p.x) && y == Quarters(p.y) by {
        InGrid(p);
      }
      var s1 := PointsBytes(points[1..], x, y, on) + rest;
      assert PointsBytes(points, px, py, on) + rest == PointBytes(p, px, py, on) + s1;
      PointRoundTrip(p, px, py, on, s1);
      PointsRoundTrip(points[1..], x, y, on, rest);
      assert ReceivedPoints(points, on) == [ReceivedPoint(p, on)] + ReceivedPoints(points[1..], on);
    }
  }

  lemma InGrid(p: InkPoint)
    requires Fits(p)
    ensures Quarters(p.x) == QuantizedSigned(p.x).value && Quarters(p.y) == QuantizedSigned(p.y).value
  {
  }

  lemma WrapUint32Identity(n: uint32)
    ensures WrapUint32(n) == n
  {
  }

  lemma {:induction false} TimesRoundTrip(points: seq<InkPoint>, previous: uint32, rest: seq<byte>)
    requires Timed(points)
    ensures ParseTimes(TimesBytes(points, previous) + rest, |points|, previous)
         == Parsed(RunningMax(points, previous), rest)
  {
    hide VarintBytes, ParseVarint, WrapUint32;
    if points == [] {
      assert TimesBytes(points, previous) + rest == rest;
    } else {
      var latest := Later(points[0].t.value, previous);
      var s1 := TimesBytes(points[1..], latest) + rest;
      assert TimesBytes(points, previous) + rest == VarintBytes(latest - previous) + s1;
      VarintRoundTrip(latest - previous, s1);
      WrapUint32Identity(latest);
      TimesRoundTrip(points[1..], latest, rest);
    }
  }

  lemma InkFlagBits(points: seq<InkPoint>)
    ensures HasFlag(InkFlags(points), FLAG_HAS_PRESSURE) == HasPressure(points)
    ensures HasFlag(InkFlags(points), FLAG_HAS_TIME) == HasTime(points)
  {
  }

  lemma InkReadsBack(p: InkPayload, rest: seq<byte>)
    requires Encodable(p) && |p.strokeId| < 0x1_0000_0000
    ensures ParseInk(InkBytes(p) + rest, InkFlags(p.points)) == Parsed(Received(p), rest)
  {
    hide StringBytes, ParseString, VarintBytes, ParseVarint, PointsBytes, ParsePoints, TimesBytes, ParseTimes;
    hide InkFlags, HasFlag, ReceivedPoints, RunningMax;
    var points := p.points;
    var on := HasPressure(points);
    var s3 := TimesSection(points) + rest;
    var s2 := PointsBytes(points, 0, 0, on) + s3;
    var s1 := VarintBytes(|points|) + s2;
    assert InkBytes(p) + rest == StringBytes(p.strokeId) + s1;
    StringRoundTrip(p.strokeId, s1);
    VarintRoundTrip(|points|, s2);
    InkFlagBits(points);
    PointsRoundTrip(points, 0, 0, on, s3);
    if HasTime(points) {
      TimesRoundTrip(points, 0, rest);
    } else {
      assert s3 == rest;
    }
  }

  /**
    Whatever follows the body, reading it back gives the received payload and stops
    at the body's end, exactly when the 32-bit length prefix holds the stroke id.
   */
  lemma InkRoundTrip(p: InkPayload, rest: seq<byte>)
    requires Encodable(p)
    ensures ParseInk(InkBytes(p) + rest, InkFlags(p.points)) == Parsed(Received(p), rest)
       <==> |p.strokeId| < 0x1_0000_0000
  {
    if |p.strokeId| < 0x1_0000_0000 {
      InkReadsBack(p, rest);
    }
  }

  // ---------------------------------------------------------------- accuracy

  /** `m` is the largest of `previous` and the times up to and including point `i`. */
  ghost predicate IsLatest(m: uint32, points: seq<InkPoint>, i: nat, previous: uint32)
    requires Timed(points) && i < |points|
  {
    && previous <= m
    && (forall j | 0 <= j <= i :: points[j].t.value <= m)
    && (m == previous || exists j | 0 <= j <= i :: points[j].t.value == m)
  }

  lemma {:induction false} RunningMaxIsLatest(points: seq<InkPoint>, previous: uint32, i: nat)
    requires Timed(points) && i < |points|
    ensures IsLatest(RunningMax(points, previous)[i], points, i, previous)
  {
    var latest := Later(points[0].t.value, previous);
    if i > 0 {
      RunningMaxIsLatest(points[1..], latest, i - 1);
      var m := RunningMax(points, previous)[i];
      assert m == RunningMax(points[1..], latest)[i - 1];
      assert forall j | 1 <= j <= i :: points[j] == points[1..][j - 1];
      if m == latest {
        assert m == previous || points[0].t.value == m;
      } else {
        var j :| 0 <= j <= i - 1 && points[1..][j].t.value == m;
        assert points[j + 1].t.value == m;
      }
    }
  }

  /** What a receiver may rely on at every index of a stroke, however long. */
  ghost predicate Accurate(sent: InkPayload, got: InkPayload) {
    && got.strokeId == sent.strokeId
    && |got.points| == |sent.points|
    && (forall i | 0 <= i < |sent.points| ::
          && Distance(got.points[i].x, sent.points[i].x) <= 0.125
          && Distance(got.points[i].y, sent.points[i].y) <= 0.125)
    && (forall i | 0 <= i < |sent.points| ::
          if forall j | 0 <= j < |sent.points| :: sent.points[j].pressure.Some? then
            && got.points[i].pressure.Some?
            && Distance(got.points[i].pressure.value, Clamp01(sent.points[i].pressure.value)) < 1.0 / 255.0
            && (sent.points[i].pressure == Some(0.5) ==> got.points[i].pressure == Some(0.5))
            && (sent.points[i].pressure.value <= 0.0 ==> got.points[i].pressure == Some(0.0))
            && (sent.points[i].pressure.value >= 1.0 ==> got.points[i].pressure == Some(1.0))
          else got.points[i].pressure.None?)
    && (forall i | 0 <= i < |sent.points| ::
          if forall j | 0 <= j < |sent.points| :: sent.points[j].t.Some? then
            got.points[i].t.Some? && IsLatest(got.points[i].t.value, sent.points, i, 0)
          else got.points[i].t.None?)
  }

  /** Rounding does not accumulate: the deltas are between rounded points. */
  lemma InkAccuracy(p: InkPayload)
    requires Encodable(p) && |p.strokeId| < 0x1_0000_0000
    ensures var got := ParseInk(InkBytes(p), InkFlags(p.points));
            got.Parsed? && got.rest == [] && Accurate(p, got.value)
  {
    hide ParseInk, InkBytes, InkFlags, Quarters, Dequantize, PressureByte, PressureOf, RunningMax, IsLatest;
    InkReadsBack(p, []);
    assert InkBytes(p) + [] == InkBytes(p);
    forall i | 0 <= i < |p.points|
      ensures Distance(Dequantize(Quarters(p.points[i].x)), p.points[i].x) <= 0.125
      ensures Distance(Dequantize(Quarters(p.points[i].y)), p.points[i].y) <= 0.125
    {
      QuantizationError(p.points[i].x);
      QuantizationError(p.points[i].y);
    }
    if HasPressure(p.points) {
      forall i | 0 <= i < |p.points|
        ensures Distance(PressureOf(PressureByte(p.points[i].pressure.value)),
                         Clamp01(p.points[i].pressure.value)) < 1.0 / 255.0
        ensures p.points[i].pressure.value == 0.5 ==> PressureOf(PressureByte(p.points[i].pressure.value)) == 0.5
        ensures p.points[i].pressure.value <= 0.0 ==> PressureOf(PressureByte(p.points[i].pressure.value)) == 0.0
        ensures p.points[i].pressure.value >= 1.0 ==> PressureOf(PressureByte(p.points[i].pressure.value)) == 1.0
      {
        ExactPressures(p.points[i].pressure.value);
        PressureError(p.points[i].pressure.value);
      }
    }
    if HasTime(p.points) {
      forall i | 0 <= i < |p.points|
        ensures IsLatest(RunningMax(p.points, 0)[i], p.points, i, 0)
      {
        RunningMaxIsLatest(p.points, 0, i);
      }
    }
  }

  // ------------------------------------------------------- what was read, written again

  /** The same stroke with each time replaced by the largest so far. */
  function Steadied(p: InkPayload): InkPayload {
    if HasTime(p.points) then InkPayload(p.strokeId, WithTimes(p.points, RunningMax(p.points, 0))) else p
  }

  /** Points that came off the wire: on the grid, all with a pressure byte or all without. */
  predicate FromWire(points: seq<InkPoint>, on: bool) {
    && AllFit(points)
    && (forall i | 0 <= i < |points| :: points[i].pressure.Some? == on)
    && (forall i | 0 <= i < |points| :: ReceivedPoint(points[i], on) == points[i].(t := None))
  }

  lemma PointShrinks(s: seq<byte>, x: int32, y: int32, on: bool)
    requires ParsePoint(s, x, y, on).Parsed?
    ensures var p := ParsePoint(s, x, y, on);
            var q := p.value.ToInk();
            && Fits(q) && q.pressure.Some? == on
            && ReceivedPoint(q, on) == q
            && Quarters(q.x) == p.value.x && Quarters(q.y) == p.value.y
            && |PointBytes(q, x, y, on)| + |p.rest| <= |s|
  {
    hide SvarintBytes, ParseSvarint, Quarters, Dequantize, PressureByte, PressureOf, WrapInt32;
    var p := ParsePoint(s, x, y, on);
    var dx := ParseSvarint(s);
    var dy := ParseSvarint(dx.rest);
    SvarintShrinks(s);
    SvarintShrinks(dx.rest);
    QuantizeAfterDequantize(p.value.x);
    QuantizeAfterDequantize(p.value.y);
    WrappedStep(x, dx.value);
    WrappedStep(y, dy.value);
    if on {
      PressureByteAfterPressureOf(dy.rest[0]);
    }
  }

  lemma WrappedStep(x: int32, dx: int32)
    ensures WrapInt32(WrapInt32(x + dx) - x) == dx
  {
  }

  lemma {:induction false} PointsShrink(s: seq<byte>, count: nat, x: int32, y: int32, on: bool)
    requires ParsePoints(s, count, x, y, on).Parsed?
    ensures var p := ParsePoints(s, count, x, y, on);
            FromWire(p.value, on) && |PointsBytes(p.value, x, y, on)| + |p.rest| <= |s|
    decreases count
  {
    hide ParsePoint, PointBytes, Quarters, ReceivedPoint, QuantizedSigned;
    if count > 0 {
      var first := ParsePoint(s, x, y, on);
      PointShrinks(s, x, y, on);
      PointsShrink(first.rest, count - 1, first.value.x, first.value.y, on);
      var p := ParsePoints(s, count, x, y, on);
      var tail := ParsePoints(first.rest, count - 1, first.value.x, first.value.y, on).value;
      assert p.value[1..] == tail;
      forall i | 0 <= i < count
        ensures Fits(p.value[i]) && p.value[i].pressure.Some? == on
        ensures ReceivedPoint(p.value[i], on) == p.value[i].(t := None)
      {
        if i > 0 {
          assert p.value[i] == tail[i - 1];
        }
      }
    }
  }

  lemma {:induction false} PointsIgnoreTimes(points: seq<InkPoint>, times: seq<uint32>, px: int32, py: int32, on: bool)
    requires |points| == |times|
    requires AllFit(points) && Pressured(points, on)
    ensures AllFit(WithTimes(points, times)) && Pressured(WithTimes(points, times), on)
    ensures PointsBytes(WithTimes(points, times), px, py, on) == PointsBytes(points, px, py, on)
    decreases |points|
  {
    hide SvarintBytes, Quarters, QuantizedSigned, PressureByte, WrapInt32;
    var timed := WithTimes(points, times);
    assert forall i | 0 <= i < |points| :: Fits(points[i]) ==> Fits(timed[i]);
    if points != [] {
      var p := points[0];
      InGrid(p);
      PointsIgnoreTimes(points[1..], times[1..], Quarters(p.x), Quarters(p.y), on);
      assert timed[1..] == WithTimes(points[1..], times[1..]);
    }
  }

  /** A wrapped client time never forces the relay to write a longer delta. */
  lemma LaterDeltaShrinks(t: uint32, delta: uint32, previous: uint32)
    requires t <= previous
    ensures Later(WrapUint32(t + delta), previous) - previous <= delta
  {
  }

  lemma {:induction false} TimesShrink(s: seq<byte>, points: seq<InkPoint>, t: uint32, previous: uint32)
    requires t <= previous
    requires ParseTimes(s, |points|, t).Parsed?
    ensures var p := ParseTimes(s, |points|, t);
            var timed := WithTimes(points, p.value);
            Timed(timed) && |TimesBytes(timed, previous)| + |p.rest| <= |s|
    decreases |points|
  {
    hide VarintBytes, ParseVarint, WrapUint32;
    if points != [] {
      var delta := ParseVarint(s);
      var next := WrapUint32(t + delta.value);
      var latest := Later(next, previous);
      VarintShrinks(s);
      LaterDeltaShrinks(t, delta.value, previous);
      VarintLengthMonotone(latest - previous, delta.value);
      TimesShrink(delta.rest, points[1..], next, latest);
      var p := ParseTimes(s, |points|, t);
      var tail := ParseTimes(delta.rest, |points| - 1, next).value;
      assert p.value[1..] == tail;
      assert WithTimes(points, p.value)[1..] == WithTimes(points[1..], tail);
    }
  }

  lemma TimedPointsShrink(s: seq<byte>, count: nat, flags: byte)
    requires ParseTimedPoints(s, count, flags).Parsed?
    ensures var p := ParseTimedPoints(s, count, flags);
            var on := HasPressure(p.value);
            && FromWire(p.value, on)
            && |PointsBytes(p.value, 0, 0, on)| + |TimesSection(p.value)| + |p.rest| <= |s|
            && (!HasTime(p.value) ==> forall i | 0 <= i < count :: p.value[i].t.None?)
  {
    hide ParsePoints, PointsBytes, ParseTimes, TimesBytes, ReceivedPoint, Fits;
    var flagged := HasFlag(flags, FLAG_HAS_PRESSURE);
    var raw := ParsePoints(s, count, 0, 0, flagged);
    PointsShrink(s, count, 0, 0, flagged);
    var p := ParseTimedPoints(s, count, flags);
    RawPointsHaveNoTime(s, count, 0, 0, flagged);
    if HasFlag(flags, FLAG_HAS_TIME) {
      var times := ParseTimes(raw.rest, count, 0);
      PointsIgnoreTimes(raw.value, times.value, 0, 0, flagged);
      TimesShrink(raw.rest, raw.value, 0, 0);
      FromWireIgnoresTimes(raw.value, times.value, flagged);
    }
    if count == 0 {
      NoPointsNoBytes();
    } else {
      assert HasPressure(p.value) == p.value[0].pressure.Some? == flagged;
    }
  }

  lemma NoPointsNoBytes()
    ensures forall on :: PointsBytes([], 0, 0, on) == []
  {
  }

  lemma {:induction false} RawPointsHaveNoTime(s: seq<byte>, count: nat, x: int32, y: int32, on: bool)
    requires ParsePoints(s, count, x, y, on).Parsed?
    ensures forall i | 0 <= i < count :: ParsePoints(s, count, x, y, on).value[i].t.None?
    decreases count
  {
    hide ParsePoint;
    if count > 0 {
      var first := ParsePoint(s, x, y, on);
      RawPointsHaveNoTime(first.rest, count - 1, first.value.x, first.value.y, on);
    }
  }

  lemma FromWireIgnoresTimes(points: seq<InkPoint>, times: seq<uint32>, on: bool)
    requires |points| == |times| && FromWire(points, on)
    ensures FromWire(WithTimes(points, times), on)
  {
    hide QuantizedSigned, Quarters, Dequantize, PressureByte, PressureOf;
    var timed := WithTimes(points, times);
    forall i | 0 <= i < |points|
      ensures Fits(timed[i]) && timed[i].pressure.Some? == on
      ensures ReceivedPoint(timed[i], on) == timed[i].(t := None)
    {
      assert Fits(points[i]);
      assert ReceivedPoint(points[i], on) == points[i].(t := None);
    }
  }

  /**
    A stroke that was accepted from the wire is accepted again for the wire, takes
    no more bytes, and is received as it was except that its times no longer go back.
   */
  lemma InkReencodes(s: seq<byte>, flags: byte)
    requires ParseInk(s, flags).Parsed?
    ensures var p := ParseInk(s, flags);
            && Encodable(p.value) && |p.value.strokeId| < 0x1_0000_0000
            && Received(p.value) == Steadied(p.value)
            && |InkBytes(p.value)| + |p.rest| <= |s|
  {
    hide ParseString, StringBytes, ParseVarint, VarintBytes, ParseTimedPoints;
    hide PointsBytes, TimesBytes, ReceivedPoint, Fits, RunningMax;
    var p := ParseInk(s, flags);
    var id := ParseString(s);
    var count := ParseVarint(id.rest);
    StringShrinks(s);
    VarintShrinks(id.rest);
    TimedPointsShrink(count.rest, count.value, flags);
    var points := p.value.points;
    var on := HasPressure(points);
    var seen := ReceivedPoints(points, on);
    if HasTime(points) {
      var latest := RunningMax(points, 0);
      assert WithTimes(seen, latest) == WithTimes(points, latest);
    } else {
      assert seen == points;
    }
  }
}
