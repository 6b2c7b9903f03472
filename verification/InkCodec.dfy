/** The loops that write and read a stroke, against the grammar of `Ink`. */
module InkCodec {
  import opened Wire
  import opened Wrappers
  import opened Quantization
  import opened Ink

  method EncodeInk(w: Writer, payload: InkPayload) returns (ok: bool)
    requires |w.buf| >= 4 && w.buf[3] == 0
    modifies w
    ensures ok == Encodable(payload)
    ensures ok ==> w.buf == old(w.buf)[3 := InkFlags(payload.points)] + InkBytes(payload)
  {
    hide StringBytes, VarintBytes, PointsBytes, TimesBytes, Fits;
    var points := payload.points;
    if payload.strokeId == [] || |points| > MAX_INK_POINTS {
      return false;
    }
    var hasPressure := points != [];
    for i := 0 to |points|
      invariant hasPressure == (points != []) && forall j | 0 <= j < i :: points[j].pressure.Some?
    {
      if points[i].pressure.None? {
        hasPressure := false;
        break;
      }
    }
    if hasPressure {
      w.OrFlag(FLAG_HAS_PRESSURE);
    }
    var hasTime := points != [];
    for i := 0 to |points|
      invariant hasTime == (points != []) && forall j | 0 <= j < i :: points[j].t.Some?
    {
      if points[i].t.None? {
        hasTime := false;
        break;
      }
    }
    if hasTime {
      w.OrFlag(FLAG_HAS_TIME);
    }
    assert w.buf == old(w.buf)[3 := InkFlags(points)];

    w.String(payload.strokeId);
    w.Varint(|points|);
    ok := EncodePoints(w, points, hasPressure);
    if ok && hasTime {
      EncodeTimes(w, points);
    }
  }

  method EncodePoints(w: Writer, points: seq<InkPoint>, on: bool) returns (ok: bool)
    requires Pressured(points, on)
    modifies w
    ensures ok == AllFit(points)
    ensures ok ==> w.buf == old(w.buf) + PointsBytes(points, 0, 0, on)
  {
    hide PointBytes, Quarters, QuantizedSigned, Fits;
    var px: int32, py: int32 := 0, 0;
    for i := 0 to |points|
      invariant AllFit(points[..i])
      invariant AllFit(points) ==>
                  w.buf + PointsBytes(points[i..], px, py, on) == old(w.buf) + PointsBytes(points, 0, 0, on)
    {
      var p := points[i];
      var x, y := QuantizedSigned(p.x), QuantizedSigned(p.y);
      FitsWhen(p);
      if x.None? || y.None? {
        return false;
      }
      ghost var before := w.buf;
      EncodePoint(w, p, x.value, y.value, px, py, on);
      if AllFit(points) {
        assert points[i..][1..] == points[i + 1..];
        assert w.buf + PointsBytes(points[i + 1..], x.value, y.value, on)
            == before + PointsBytes(points[i..], px, py, on);
      }
      assert points[..i + 1] == points[..i] + [p];
      px, py := x.value, y.value;
    }
    assert points[..|points|] == points && points[|points|..] == [];
    ok := true;
  }

  method EncodePoint(w: Writer, p: InkPoint, x: int32, y: int32, px: int32, py: int32, on: bool)
    requires Fits(p) && (on ==> p.pressure.Some?)
    requires QuantizedSigned(p.x) == Some(x) && QuantizedSigned(p.y) == Some(y)
    modifies w
    ensures x == Quarters(p.x) && y == Quarters(p.y)
    ensures w.buf == old(w.buf) + PointBytes(p, px, py, on)
  {
    hide SvarintBytes, WrapInt32, PressureByte;
    w.Svarint(WrapInt32(x - px));
    w.Svarint(WrapInt32(y - py));
    if on {
      w.U8(PressureByte(p.pressure.value));
    }
  }

  lemma FitsWhen(p: InkPoint)
    ensures Fits(p) == (QuantizedSigned(p.x).Some? && QuantizedSigned(p.y).Some?)
  {
  }

  method EncodeTimes(w: Writer, points: seq<InkPoint>)
    requires Timed(points)
    modifies w
    ensures w.buf == old(w.buf) + TimesBytes(points, 0)
  {
    hide VarintBytes;
    var previous: uint32 := 0;
    for i := 0 to |points|
      invariant w.buf + TimesBytes(points[i..], previous) == old(w.buf) + TimesBytes(points, 0)
    {
      ghost var before, whole, earlier := w.buf, TimesBytes(points[i..], previous), previous;
      var t := points[i].t.value;
      var delta: uint32 := 0;
      if t > previous {
        delta := t - previous;
        previous := t;
      }
      w.Varint(delta);
      assert points[i..][1..] == points[i + 1..];
      assert w.buf + TimesBytes(points[i + 1..], previous) == before + whole;
    }
    assert points[|points|..] == [];
  }

  function Prepend<T>(head: seq<T>, p: Parse<seq<T>>): Parse<seq<T>> {
    if p.Malformed? then Malformed else Parsed(head + p.value, p.rest)
  }

  method DecodeInk(r: Reader, flags: byte) returns (result: Option<InkPayload>)
    requires r.Valid()
    modifies r
    ensures r.Reads(ParseInk(old(r.Rest()), flags), result)
  {
    hide ParseString, ParseVarint, ParsePoints, ParseTimes;
    var strokeId := r.String();
    if strokeId.None? || strokeId.value == [] {
      return None;
    }
    var count := r.Varint();
    if count.None? || count.value > MAX_INK_POINTS {
      return None;
    }
    var points := DecodePoints(r, count.value, HasFlag(flags, FLAG_HAS_PRESSURE));
    if points.None? {
      return None;
    }
    if !HasFlag(flags, FLAG_HAS_TIME) {
      return Some(InkPayload(strokeId.value, points.value));
    }
    var timed := DecodeTimes(r, points.value);
    result := if timed.None? then None else Some(InkPayload(strokeId.value, timed.value));
  }

  lemma NoPointLeft(s: seq<byte>, x: int32, y: int32, on: bool)
    ensures ParsePoints(s, 0, x, y, on) == Parsed([], s)
  {
  }

  lemma OnePointMore(s: seq<byte>, count: nat, x: int32, y: int32, on: bool)
    requires count > 0
    ensures var point := ParsePoint(s, x, y, on);
            ParsePoints(s, count, x, y, on)
            == if point.Malformed? then Malformed
               else Prepend([point.value.ToInk()], ParsePoints(point.rest, count - 1, point.value.x, point.value.y, on))
  {
  }

  method DecodePoints(r: Reader, count: nat, on: bool) returns (result: Option<seq<InkPoint>>)
    requires r.Valid()
    modifies r
    ensures r.Reads(ParsePoints(old(r.Rest()), count, 0, 0, on), result)
  {
    hide ParsePoints, ParseSvarint, WrapInt32, PressureOf;
    ghost var whole := ParsePoints(r.Rest(), count, 0, 0, on);
    PrependNothing(whole);
    var points: seq<InkPoint> := [];
    var x: int32, y: int32 := 0, 0;
    for index := 0 to count
      invariant r.Valid()
      invariant whole == Prepend(points, ParsePoints(r.Rest(), count - index, x, y, on))
    {
      ghost var before := r.Rest();
      ghost var one := ParsePoint(before, x, y, on);
      OnePointMore(before, count - index, x, y, on);
      var dx := r.Svarint();
      if dx.None? {
        return None;
      }
      var dy := r.Svarint();
      if dy.None? {
        return None;
      }
      x, y := WrapInt32(x + dx.value), WrapInt32(y + dy.value);
      var pressure := None;
      if on {
        var value := r.U8();
        if value.None? {
          return None;
        }
        pressure := Some(PressureOf(value.value));
      }
      assert one == Parsed(GridPoint(x, y, pressure), r.Rest());
      var point := InkPoint(Dequantize(x), Dequantize(y), pressure, None);
      PrependTwice(points, [point], ParsePoints(r.Rest(), count - index - 1, x, y, on));
      points := points + [point];
    }
    NoPointLeft(r.Rest(), x, y, on);
    assert points + [] == points;
    result := Some(points);
  }

  lemma PrependNothing<T>(p: Parse<seq<T>>)
    ensures Prepend([], p) == p
  {
    if p.Parsed? {
      assert [] + p.value == p.value;
    }
  }

  lemma PrependTwice<T>(a: seq<T>, b: seq<T>, p: Parse<seq<T>>)
    ensures Prepend(a, Prepend(b, p)) == Prepend(a + b, p)
  {
    if p.Parsed? {
      assert a + (b + p.value) == (a + b) + p.value;
    }
  }

  method DecodeTimes(r: Reader, points: seq<InkPoint>) returns (result: Option<seq<InkPoint>>)
    requires r.Valid()
    modifies r
    ensures r.Valid()
    ensures var p := ParseTimes(old(r.Rest()), |points|, 0);
            if p.Malformed? then result.None?
            else result == Some(WithTimes(points, p.value)) && r.Rest() == p.rest
  {
    hide ParseVarint, WrapUint32;
    ghost var whole := ParseTimes(r.Rest(), |points|, 0);
    PrependNothing(whole);
    ghost var times: seq<uint32> := [];
    var timed := points;
    var t: uint32 := 0;
    for index := 0 to |points|
      invariant r.Valid() && |timed| == |points| && |times| == index
      invariant forall i | 0 <= i < index :: timed[i] == points[i].(t := Some(times[i]))
      invariant forall i | index <= i < |points| :: timed[i] == points[i]
      invariant whole == Prepend(times, ParseTimes(r.Rest(), |points| - index, t))
    {
      ghost var step := ParseTimes(r.Rest(), |points| - index, t);
      var delta := r.Varint();
      if delta.None? {
        return None;
      }
      t := WrapUint32(t + delta.value);
      timed := timed[index := timed[index].(t := Some(t))];
      assert step == Prepend([t], ParseTimes(r.Rest(), |points| - index - 1, t));
      PrependTwice(times, [t], ParseTimes(r.Rest(), |points| - index - 1, t));
      times := times + [t];
    }
    assert times + [] == times;
    assert timed == WithTimes(points, times);
    result := Some(timed);
  }
}
