/**
  What a frame says, told from its bytes.

  A syntax tree names the pieces of a frame, its source is the bytes of the pieces in
  order, and its meaning is what they stand for.  The theorems say that the decoders
  accept exactly the sources of well-formed trees, padded numbers included, and answer
  with their meanings.
 */
module Grammar {
  import opened Wire
  import opened Wrappers
  import opened Ink
  import opened Preview

  // --------------------------------------------------------------------- numbers

  /** Seven bits a byte, the lowest first. */
  function Groups(v: seq<byte>): nat {
    if v == [] then 0 else v[0] % 0x80 + 0x80 * Groups(v[1..])
  }

  /** All bytes but the last are marked, and a last byte that uses up the budget has four bits. */
  predicate EndsWithin(v: seq<byte>, budget: nat) {
    && 1 <= |v| <= budget
    && (forall i | 0 <= i < |v| - 1 :: v[i] >= 0x80)
    && v[|v| - 1] < 0x80
    && (|v| == budget ==> v[|v| - 1] < 0x10)
  }

  predicate IsVarint(v: seq<byte>) {
    EndsWithin(v, 5)
  }

  /** Even numbers count up from zero and odd ones down from minus one. */
  function Signed(n: nat): int {
    if n % 2 == 0 then n / 2 else -((n + 1) / 2)
  }

  lemma MarkedInFront(v: seq<byte>, b: byte, budget: nat)
    requires EndsWithin(v, budget) && b >= 0x80
    ensures EndsWithin([b] + v, budget + 1) && Groups([b] + v) == b - 0x80 + 0x80 * Groups(v)
  {
    assert ([b] + v)[1..] == v;
  }

  lemma MarkedBefore(v: seq<byte>, budget: nat)
    requires EndsWithin(v, budget) && |v| > 1
    ensures v[0] >= 0x80 && EndsWithin(v[1..], budget - 1)
    ensures Groups(v) == v[0] - 0x80 + 0x80 * Groups(v[1..])
  {
    var tail := v[1..];
    assert Groups(v) == v[0] % 0x80 + 0x80 * Groups(tail);
    assert v[0] >= 0x80 && v[0] % 0x80 == v[0] - 0x80;
    hide Groups;
    assert |tail| == |v| - 1 && tail[|tail| - 1] == v[|v| - 1];
    forall i | 0 <= i < |tail| - 1 ensures tail[i] >= 0x80 {
      assert tail[i] == v[i + 1];
    }
  }

  lemma LastByte(v: seq<byte>, budget: nat)
    requires EndsWithin(v, budget) && |v| == 1
    ensures v[0] < 0x80 && (budget == 1 ==> v[0] < 0x10) && Groups(v) == v[0]
  {
    assert v[1..] == [];
  }

  lemma {:induction false} VarintIsReadFrom(v: seq<byte>, rest: seq<byte>, index: nat)
    requires index <= 4 && EndsWithin(v, 5 - index)
    ensures ParseVarintFrom(v + rest, index) == Parsed(Groups(v), rest)
    decreases |v|
  {
    assert |v| >= 1 && (|v| > 1 ==> index < 4);
    hide EndsWithin, Groups, VarintLimit;
    var s := v + rest;
    assert s[0] == v[0] && s[1..] == v[1..] + rest;
    if |v| > 1 {
      MarkedBefore(v, 5 - index);
      VarintIsReadFrom(v[1..], rest, index + 1);
    } else {
      LastByte(v, 5 - index);
      assert v[1..] == [] && [] + rest == rest;
    }
  }

  lemma {:induction false} VarintWasThereFrom(s: seq<byte>, index: nat) returns (v: seq<byte>)
    requires index <= 5 && ParseVarintFrom(s, index).Parsed?
    ensures var p := ParseVarintFrom(s, index);
            index <= 4 && EndsWithin(v, 5 - index) && Groups(v) == p.value && s == v + p.rest
    decreases 5 - index
  {
    hide VarintLimit;
    if s[0] < 0x80 {
      v := s[..1];
      assert v[1..] == [];
      assert EndsWithin(v, 5 - index) && Groups(v) == s[0];
    } else {
      hide EndsWithin, Groups;
      var tail := VarintWasThereFrom(s[1..], index + 1);
      v := [s[0]] + tail;
      MarkedInFront(tail, s[0], 4 - index);
      assert s == [s[0]] + s[1..];
    }
  }

  lemma VarintIsRead(v: seq<byte>, rest: seq<byte>)
    requires IsVarint(v)
    ensures ParseVarint(v + rest) == Parsed(Groups(v), rest)
  {
    VarintIsReadFrom(v, rest, 0);
  }

  lemma VarintWasThere(s: seq<byte>) returns (v: seq<byte>)
    requires ParseVarint(s).Parsed?
    ensures IsVarint(v) && Groups(v) == ParseVarint(s).value && s == v + ParseVarint(s).rest
  {
    v := VarintWasThereFrom(s, 0);
  }

  /** A varint is read exactly where one stands: the budget, the marks and the last four bits decide. */
  lemma VarintGrammar(s: seq<byte>, n: nat, rest: seq<byte>)
    ensures ParseVarint(s) == Parsed(n, rest) <==> exists v :: IsVarint(v) && s == v + rest && n == Groups(v)
  {
    hide ParseVarint, IsVarint;
    if ParseVarint(s) == Parsed(n, rest) {
      var v := VarintWasThere(s);
    }
    forall v | IsVarint(v) && s == v + rest && n == Groups(v) ensures ParseVarint(s) == Parsed(n, rest) {
      VarintIsRead(v, rest);
    }
  }

  lemma SvarintIsRead(v: seq<byte>, rest: seq<byte>)
    requires IsVarint(v)
    ensures ParseSvarint(v + rest) == Parsed(Signed(Groups(v)), rest)
  {
    VarintIsRead(v, rest);
  }

  lemma SvarintWasThere(s: seq<byte>) returns (v: seq<byte>)
    requires ParseSvarint(s).Parsed?
    ensures IsVarint(v) && Signed(Groups(v)) == ParseSvarint(s).value && s == v + ParseSvarint(s).rest
  {
    v := VarintWasThere(s);
  }

  // --------------------------------------------------------------------- strings

  predicate IsString(length: seq<byte>, text: Text) {
    IsVarint(length) && Groups(length) == |text|
  }

  lemma StringIsRead(length: seq<byte>, text: Text, rest: seq<byte>)
    requires IsString(length, text)
    ensures ParseString(length + (text + rest)) == Parsed(text, rest)
  {
    hide ParseVarint, IsVarint;
    VarintIsRead(length, text + rest);
    assert (text + rest)[..|text|] == text && (text + rest)[|text|..] == rest;
  }

  lemma StringWasThere(s: seq<byte>) returns (length: seq<byte>)
    requires ParseString(s).Parsed?
    ensures IsString(length, ParseString(s).value) && s == length + (ParseString(s).value + ParseString(s).rest)
  {
    hide ParseVarint, IsVarint;
    length := VarintWasThere(s);
    var after := ParseVarint(s).rest;
    assert after == after[..|ParseString(s).value|] + after[|ParseString(s).value|..];
  }

  // ---------------------------------------------------------------------- points

  datatype PointSyntax = PointSyntax(dx: seq<byte>, dy: seq<byte>, pressure: seq<byte>)

  predicate IsPoint(p: PointSyntax, pressured: bool) {
    IsVarint(p.dx) && IsVarint(p.dy) && |p.pressure| == if pressured then 1 else 0
  }

  /** The bytes of the points, and then `rest`. */
  function PointsSource(points: seq<PointSyntax>, rest: seq<byte>): seq<byte> {
    if points == [] then rest
    else points[0].dx + (points[0].dy + (points[0].pressure + PointsSource(points[1..], rest)))
  }

  /** 128 is neutral; every other byte is a fraction of 255. */
  function PressureMeaning(pressure: seq<byte>): Option<real> {
    if pressure == [] then None
    else if pressure[0] == 128 then Some(0.5)
    else Some(pressure[0] as real / 255.0)
  }

  /** Quarter units, each point told from the one before with 32-bit wraparound. */
  function PointsMeaning(points: seq<PointSyntax>, x: int32, y: int32): (r: seq<InkPoint>)
    ensures |r| == |points|
  {
    if points == [] then []
    else
      var nextX := WrapInt32(x + Signed(Groups(points[0].dx)));
      var nextY := WrapInt32(y + Signed(Groups(points[0].dy)));
      [InkPoint(nextX as real / 4.0, nextY as real / 4.0, PressureMeaning(points[0].pressure), None)]
      + PointsMeaning(points[1..], nextX, nextY)
  }

  lemma PointIsRead(p: PointSyntax, x: int32, y: int32, on: bool, rest: seq<byte>)
    requires IsPoint(p, on)
    ensures var point := ParsePoint(p.dx + (p.dy + (p.pressure + rest)), x, y, on);
            && point.Parsed? && point.rest == rest
            && point.value.x == WrapInt32(x + Signed(Groups(p.dx)))
            && point.value.y == WrapInt32(y + Signed(Groups(p.dy)))
            && point.value.pressure == PressureMeaning(p.pressure)
  {
    hide ParseSvarint, IsVarint, Groups, Signed, WrapInt32;
    SvarintIsRead(p.dx, p.dy + (p.pressure + rest));
    SvarintIsRead(p.dy, p.pressure + rest);
    if on {
      assert (p.pressure + rest)[0] == p.pressure[0] && (p.pressure + rest)[1..] == rest;
    } else {
      assert p.pressure + rest == rest;
    }
  }

  lemma PointWasThere(s: seq<byte>, x: int32, y: int32, on: bool) returns (p: PointSyntax)
    requires ParsePoint(s, x, y, on).Parsed?
    ensures IsPoint(p, on) && s == p.dx + (p.dy + (p.pressure + ParsePoint(s, x, y, on).rest))
  {
    hide IsVarint, WrapInt32, PressureMeaning;
    hide ParseSvarint;
    var dx := SvarintWasThere(s);
    var after := ParseSvarint(s).rest;
    var dy := SvarintWasThere(after);
    var left := ParseSvarint(after).rest;
    p := PointSyntax(dx, dy, if on then left[..1] else []);
    if on {
      assert left == left[..1] + left[1..];
    } else {
      assert [] + left == left;
    }
  }

  lemma {:induction false} PointsAreRead(points: seq<PointSyntax>, x: int32, y: int32, on: bool, rest: seq<byte>)
    requires forall i | 0 <= i < |points| :: IsPoint(points[i], on)
    ensures ParsePoints(PointsSource(points, rest), |points|, x, y, on) == Parsed(PointsMeaning(points, x, y), rest)
    decreases |points|
  {
    hide ParsePoint, IsPoint, Groups, Signed, WrapInt32, PressureMeaning;
    if points != [] {
      var tail := PointsSource(points[1..], rest);
      PointIsRead(points[0], x, y, on, tail);
      var nextX := WrapInt32(x + Signed(Groups(points[0].dx)));
      var nextY := WrapInt32(y + Signed(Groups(points[0].dy)));
      PointsAreRead(points[1..], nextX, nextY, on, rest);
    }
  }

  lemma {:induction false} PointsWereThere(s: seq<byte>, count: nat, x: int32, y: int32, on: bool)
    returns (points: seq<PointSyntax>)
    requires ParsePoints(s, count, x, y, on).Parsed?
    ensures |points| == count && forall i | 0 <= i < |points| :: IsPoint(points[i], on)
    ensures s == PointsSource(points, ParsePoints(s, count, x, y, on).rest)
    decreases count
  {
    hide ParsePoint, IsPoint;
    if count == 0 {
      points := [];
    } else {
      var first := PointWasThere(s, x, y, on);
      var point := ParsePoint(s, x, y, on);
      var tail := PointsWereThere(point.rest, count - 1, point.value.x, point.value.y, on);
      points := [first] + tail;
      assert points[1..] == tail;
    }
  }

  // ----------------------------------------------------------------------- times

  function TimesSource(times: seq<seq<byte>>, rest: seq<byte>): seq<byte> {
    if times == [] then rest else times[0] + TimesSource(times[1..], rest)
  }

  /** Each time is told from the one before and wraps at 32 bits. */
  function TimesMeaning(times: seq<seq<byte>>, t: uint32): (r: seq<uint32>)
    ensures |r| == |times|
  {
    if times == [] then []
    else
      var next := (t + Groups(times[0])) % 0x1_0000_0000;
      [next] + TimesMeaning(times[1..], next)
  }

  lemma {:induction false} TimesAreRead(times: seq<seq<byte>>, t: uint32, rest: seq<byte>)
    requires forall i | 0 <= i < |times| :: IsVarint(times[i])
    ensures ParseTimes(TimesSource(times, rest), |times|, t) == Parsed(TimesMeaning(times, t), rest)
    decreases |times|
  {
    hide ParseVarint, IsVarint, Groups;
    if times != [] {
      VarintIsRead(times[0], TimesSource(times[1..], rest));
      TimesAreRead(times[1..], (t + Groups(times[0])) % 0x1_0000_0000, rest);
    }
  }

  lemma {:induction false} TimesWereThere(s: seq<byte>, count: nat, t: uint32) returns (times: seq<seq<byte>>)
    requires ParseTimes(s, count, t).Parsed?
    ensures |times| == count && forall i | 0 <= i < |times| :: IsVarint(times[i])
    ensures s == TimesSource(times, ParseTimes(s, count, t).rest)
    decreases count
  {
    hide ParseVarint, IsVarint, WrapUint32;
    if count == 0 {
      times := [];
    } else {
      var first := VarintWasThere(s);
      var delta := ParseVarint(s);
      var tail := TimesWereThere(delta.rest, count - 1, WrapUint32(t + delta.value));
      times := [first] + tail;
      assert times[1..] == tail;
    }
  }

  // --------------------------------------------------------------------- strokes

  datatype InkSyntax = InkSyntax(idLength: seq<byte>, id: Text, count: seq<byte>,
                                 points: seq<PointSyntax>, times: seq<seq<byte>>)

  /** The lowest bit of the flags says that points have pressures, the next that times follow. */
  predicate IsInk(k: InkSyntax, flags: byte) {
    && IsString(k.idLength, k.id) && k.id != []
    && IsVarint(k.count) && Groups(k.count) == |k.points| <= 4096
    && (forall i | 0 <= i < |k.points| :: IsPoint(k.points[i], flags % 2 == 1))
    && |k.times| == (if flags / 2 % 2 == 1 then |k.points| else 0)
    && (forall i | 0 <= i < |k.times| :: IsVarint(k.times[i]))
  }

  function InkSource(k: InkSyntax, rest: seq<byte>): seq<byte> {
    k.idLength + (k.id + (k.count + PointsSource(k.points, TimesSource(k.times, rest))))
  }

  function InkMeaning(k: InkSyntax, flags: byte): InkPayload
    requires IsInk(k, flags)
  {
    var points := PointsMeaning(k.points, 0, 0);
    InkPayload(k.id, if flags / 2 % 2 == 1 then WithTimes(points, TimesMeaning(k.times, 0)) else points)
  }

  lemma InkIsRead(k: InkSyntax, flags: byte, rest: seq<byte>)
    requires IsInk(k, flags)
    ensures ParseInk(InkSource(k, rest), flags) == Parsed(InkMeaning(k, flags), rest)
  {
    hide ParseString, IsString, ParseVarint, IsVarint, Groups, ParsePoints, PointsSource, PointsMeaning, IsPoint;
    hide ParseTimes, TimesSource, TimesMeaning;
    var s3 := TimesSource(k.times, rest);
    var s2 := PointsSource(k.points, s3);
    StringIsRead(k.idLength, k.id, k.count + s2);
    VarintIsRead(k.count, s2);
    PointsAreRead(k.points, 0, 0, flags % 2 == 1, s3);
    TimesAreRead(k.times, 0, rest);
    if flags / 2 % 2 == 0 {
      NoTimes(k.times, rest);
    }
  }

  lemma NoTimes(times: seq<seq<byte>>, rest: seq<byte>)
    requires |times| == 0
    ensures TimesSource(times, rest) == rest
  {
  }

  lemma InkWasThere(s: seq<byte>, flags: byte) returns (k: InkSyntax)
    requires ParseInk(s, flags).Parsed?
    ensures IsInk(k, flags) && s == InkSource(k, ParseInk(s, flags).rest)
  {
    hide ParseString, IsString, ParseVarint, IsVarint, Groups, ParsePoints, PointsSource, IsPoint;
    hide ParseTimes, TimesSource;
    var idLength := StringWasThere(s);
    var id := ParseString(s);
    var count := VarintWasThere(id.rest);
    var n := ParseVarint(id.rest);
    var points := PointsWereThere(n.rest, n.value, 0, 0, flags % 2 == 1);
    var raw := ParsePoints(n.rest, n.value, 0, 0, flags % 2 == 1);
    var times := [];
    if flags / 2 % 2 == 1 {
      times := TimesWereThere(raw.rest, n.value, 0);
    } else {
      NoTimes(times, raw.rest);
    }
    k := InkSyntax(idLength, id.value, count, points, times);
  }

  // ---------------------------------------------------------------------- bodies

  datatype BodySyntax =
    | InkBody(ink: InkSyntax)
    | PointerBody(pageLength: seq<byte>, page: Text, px: seq<byte>, py: seq<byte>)
    | TransformBody(blockLength: seq<byte>, block: Text, inLength: seq<byte>, inPage: Text,
                    x: seq<byte>, y: seq<byte>, width: seq<byte>, height: seq<byte>, rotation: seq<byte>)

  predicate IsBody(b: BodySyntax, code: byte, flags: byte) {
    match b
    case InkBody(ink) => code == 3 && flags < 4 && IsInk(ink, flags)
    case PointerBody(pageLength, page, x, y) =>
      && (code == 1 || code == 2) && flags == 0
      && IsString(pageLength, page) && page != [] && IsVarint(x) && IsVarint(y)
    case TransformBody(blockLength, block, pageLength, page, x, y, width, height, rotation) =>
      && code == 4 && flags == 0
      && IsString(blockLength, block) && block != [] && IsString(pageLength, page) && page != []
      && IsVarint(x) && IsVarint(y) && IsVarint(width) && IsVarint(height) && IsVarint(rotation)
  }

  function BodySource(b: BodySyntax, rest: seq<byte>): seq<byte> {
    match b
    case InkBody(ink) => InkSource(ink, rest)
    case PointerBody(pageLength, page, x, y) => pageLength + (page + (x + (y + rest)))
    case TransformBody(blockLength, block, pageLength, page, x, y, width, height, rotation) =>
      blockLength + (block + (pageLength + (page + (x + (y + (width + (height + (rotation + rest))))))))
  }

  /** Places and sizes in quarter units, angles in hundredths. */
  function BodyMeaning(b: BodySyntax, code: byte, flags: byte): Payload
    requires IsBody(b, code, flags)
  {
    match b
    case InkBody(ink) => InkData(InkMeaning(ink, flags))
    case PointerBody(_, page, x, y) =>
      PointerData(PointerPayload(page, Signed(Groups(x)) as real / 4.0, Signed(Groups(y)) as real / 4.0))
    case TransformBody(_, block, _, page, x, y, width, height, rotation) =>
      TransformData(TransformPayload(
        block, page, Signed(Groups(x)) as real / 4.0, Signed(Groups(y)) as real / 4.0,
        Groups(width) as real / 4.0, Groups(height) as real / 4.0, Signed(Groups(rotation)) as real / 100.0))
  }

  lemma PointerIsRead(b: BodySyntax, code: byte, rest: seq<byte>)
    requires b.PointerBody? && IsBody(b, code, 0)
    ensures ParsePointer(BodySource(b, rest)) == Parsed(BodyMeaning(b, code, 0).pointer, rest)
  {
    hide ParseString, IsString, ParseSvarint, IsVarint, Groups, Signed;
    StringIsRead(b.pageLength, b.page, b.px + (b.py + rest));
    SvarintIsRead(b.px, b.py + rest);
    SvarintIsRead(b.py, rest);
  }

  lemma GeometryIsRead(b: BodySyntax, rest: seq<byte>)
    requires b.TransformBody? && IsBody(b, 4, 0)
    ensures ParseGeometry(b.x + (b.y + (b.width + (b.height + (b.rotation + rest)))), b.block, b.inPage)
         == Parsed(BodyMeaning(b, 4, 0).transform, rest)
  {
    hide ParseString, IsString, ParseSvarint, ParseVarint, IsVarint, Groups, Signed;
    SvarintIsRead(b.x, b.y + (b.width + (b.height + (b.rotation + rest))));
    SvarintIsRead(b.y, b.width + (b.height + (b.rotation + rest)));
    VarintIsRead(b.width, b.height + (b.rotation + rest));
    VarintIsRead(b.height, b.rotation + rest);
    SvarintIsRead(b.rotation, rest);
  }

  lemma TransformIsRead(b: BodySyntax, rest: seq<byte>)
    requires b.TransformBody? && IsBody(b, 4, 0)
    ensures ParseTransform(BodySource(b, rest)) == Parsed(BodyMeaning(b, 4, 0).transform, rest)
  {
    hide ParseString, IsString, ParseGeometry, BodyMeaning, IsVarint;
    var geometry := b.x + (b.y + (b.width + (b.height + (b.rotation + rest))));
    StringIsRead(b.blockLength, b.block, b.inLength + (b.inPage + geometry));
    StringIsRead(b.inLength, b.inPage, geometry);
    GeometryIsRead(b, rest);
  }

  lemma BodyIsRead(b: BodySyntax, code: byte, flags: byte, rest: seq<byte>)
    requires IsBody(b, code, flags)
    ensures ParseBody(code, flags, BodySource(b, rest)) == Parsed(BodyMeaning(b, code, flags), rest)
  {
    hide ParseInk, InkSource, InkMeaning, ParsePointer, ParseTransform, IsInk, IsString, IsVarint;
    match b
    case InkBody(ink) => InkIsRead(ink, flags, rest);
    case PointerBody(_, _, _, _) => PointerIsRead(b, code, rest);
    case TransformBody(_, _, _, _, _, _, _, _, _) => TransformIsRead(b, rest);
  }

  lemma PointerWasThere(s: seq<byte>, code: byte) returns (b: BodySyntax)
    requires ParsePointer(s).Parsed? && (code == 1 || code == 2)
    ensures b.PointerBody? && IsBody(b, code, 0) && s == BodySource(b, ParsePointer(s).rest)
  {
    hide ParseString, IsString, ParseSvarint, IsVarint, Groups, Signed;
    var pageLength := StringWasThere(s);
    var page := ParseString(s);
    var x := SvarintWasThere(page.rest);
    var y := SvarintWasThere(ParseSvarint(page.rest).rest);
    b := PointerBody(pageLength, page.value, x, y);
  }

  lemma TransformWasThere(s: seq<byte>) returns (b: BodySyntax)
    requires ParseTransform(s).Parsed?
    ensures b.TransformBody? && IsBody(b, 4, 0) && s == BodySource(b, ParseTransform(s).rest)
  {
    hide ParseString, IsString, ParseSvarint, ParseVarint, IsVarint, Groups, Signed;
    var blockLength := StringWasThere(s);
    var block := ParseString(s);
    var pageLength := StringWasThere(block.rest);
    var page := ParseString(block.rest);
    var x := SvarintWasThere(page.rest);
    var s4 := ParseSvarint(page.rest).rest;
    var y := SvarintWasThere(s4);
    var s5 := ParseSvarint(s4).rest;
    var width := VarintWasThere(s5);
    var s6 := ParseVarint(s5).rest;
    var height := VarintWasThere(s6);
    var s7 := ParseVarint(s6).rest;
    var rotation := SvarintWasThere(s7);
    b := TransformBody(blockLength, block.value, pageLength, page.value, x, y, width, height, rotation);
  }

  lemma BodyWasThere(code: byte, flags: byte, s: seq<byte>) returns (b: BodySyntax)
    requires ParseBody(code, flags, s).Parsed?
    ensures IsBody(b, code, flags) && s == BodySource(b, ParseBody(code, flags, s).rest)
  {
    hide ParseInk, InkSource, ParsePointer, ParseTransform, IsInk, IsString, IsVarint;
    if code == CODE_INK {
      var ink := InkWasThere(s, flags);
      b := InkBody(ink);
    } else if code == CODE_TRANSFORM {
      b := TransformWasThere(s);
    } else {
      b := PointerWasThere(s, code);
    }
  }

  // --------------------------------------------------------------- client frames

  /** A header of eight bytes and a body that ends where the frame ends. */
  predicate IsFrame(data: seq<byte>, b: BodySyntax) {
    && |data| >= 8 && data[0] == 0xCB && data[1] == 1
    && IsBody(b, data[2], data[3])
    && data[8..] == BodySource(b, [])
  }

  /** Four bytes, the lowest first. */
  function Number(a: int, b: int, c: int, d: int): (n: uint32)
    requires 0 <= a < 0x100 && 0 <= b < 0x100 && 0 <= c < 0x100 && 0 <= d < 0x100
  {
    a + 0x100 * b + 0x1_0000 * c + 0x100_0000 * d
  }

  function FrameMeaning(data: seq<byte>, b: BodySyntax): Envelope
    requires IsFrame(data, b)
  {
    var event := if data[2] == 1 then "cursor.moved" else if data[2] == 2 then "laser.moved"
                 else if data[2] == 3 then "ink.points" else "block.transform.preview";
    var n := Number(data[4], data[5], data[6], data[7]);
    Envelope(2, [], [], [], event, None, None, if n == 0 then None else Some(n), 0,
             BodyMeaning(b, data[2], data[3]))
  }

  lemma FourBytes(s: seq<byte>)
    requires |s| == 4
    ensures ReadUint32(s) == Number(s[0], s[1], s[2], s[3])
  {
    var s1, s2, s3 := s[1..], s[2..], s[3..];
    assert s1[1..] == s2 && s2[1..] == s3 && s3[1..] == [];
    assert FromLittleEndian(s3) == s[3];
    assert FromLittleEndian(s2) == s[2] + 0x100 * FromLittleEndian(s3);
    assert FromLittleEndian(s1) == s[1] + 0x100 * FromLittleEndian(s2);
  }

  lemma HeaderSays(data: seq<byte>)
    requires |data| >= 8 && data[0] == 0xCB && data[1] == 1
    ensures ReadHeader(data) == Some(Header(data[2], data[3], Number(data[4], data[5], data[6], data[7])))
  {
    FourBytes(data[4..8]);
    hide ReadUint32;
  }

  lemma FrameIsRead(data: seq<byte>, b: BodySyntax)
    requires IsFrame(data, b)
    ensures DecodeClient(data) == Some(FrameMeaning(data, b))
  {
    HeaderSays(data);
    BodyIsRead(b, data[2], data[3], []);
    LowFlags(b, data[2], data[3]);
    hide ParseBody, IsBody, BodySource, BodyMeaning, ReadHeader, Number;
  }

  lemma LowFlags(b: BodySyntax, code: byte, flags: byte)
    requires IsBody(b, code, flags)
    ensures flags < 4 && 1 <= code <= 4 && !HasFlag(flags, FLAG_RELAY_METADATA)
  {
  }

  /** The decoder accepts exactly the frames of the grammar, and answers with what they say. */
  lemma DecodesExactly(data: seq<byte>, e: Envelope)
    ensures DecodeClient(data) == Some(e) <==> exists b :: IsFrame(data, b) && e == FrameMeaning(data, b)
  {
    hide IsFrame, FrameMeaning;
    if DecodeClient(data) == Some(e) {
      var b := FrameWasThere(data);
      FrameIsRead(data, b);
    }
    forall b | IsFrame(data, b) ensures DecodeClient(data) == Some(FrameMeaning(data, b)) {
      FrameIsRead(data, b);
    }
  }

  lemma FrameWasThere(data: seq<byte>) returns (b: BodySyntax)
    requires DecodeClient(data).Some?
    ensures IsFrame(data, b)
  {
    hide ParseBody, IsBody, BodySource, ReadUint32;
    b := BodyWasThere(data[2], data[3], data[8..]);
  }

  lemma ExtraIsLeft(frame: seq<byte>, b: BodySyntax, extra: seq<byte>)
    requires IsFrame(frame, b)
    ensures var data := frame + extra;
            && data[..8] == frame[..8]
            && ParseBody(data[2], data[3], data[8..]) == Parsed(BodyMeaning(b, frame[2], frame[3]), extra)
  {
    var data := frame + extra;
    assert data[8..] == frame[8..] + extra && data[2] == frame[2] && data[3] == frame[3];
    hide ParseBody, IsBody, BodySource, BodyMeaning;
    BodySourceThen(b, extra);
    BodyIsRead(b, frame[2], frame[3], extra);
  }

  lemma BodyDecides(data: seq<byte>)
    requires |data| >= 8 && ParseBody(data[2], data[3], data[8..]).Parsed?
    requires ParseBody(data[2], data[3], data[8..]).rest != []
    ensures DecodeClient(data).None?
  {
    hide ParseBody;
  }

  /** Nothing may follow an accepted frame, and so no accepted frame begins another. */
  lemma NothingMayFollow(frame: seq<byte>, extra: seq<byte>)
    requires DecodeClient(frame).Some? && extra != []
    ensures DecodeClient(frame + extra).None?
  {
    var b := FrameWasThere(frame);
    hide ParseBody, IsBody, BodySource, BodyMeaning, ReadHeader, DecodeClient;
    ExtraIsLeft(frame, b, extra);
    BodyDecides(frame + extra);
  }

  lemma {:induction false} PressuresSaid(points: seq<PointSyntax>, x: int32, y: int32, i: nat)
    requires i < |points|
    ensures PointsMeaning(points, x, y)[i].pressure == PressureMeaning(points[i].pressure)
    decreases |points|
  {
    hide Groups, Signed, WrapInt32, PressureMeaning;
    if i > 0 {
      var nextX := WrapInt32(x + Signed(Groups(points[0].dx)));
      var nextY := WrapInt32(y + Signed(Groups(points[0].dy)));
      PressuresSaid(points[1..], nextX, nextY, i - 1);
      assert PointsMeaning(points, x, y)[i] == PointsMeaning(points[1..], nextX, nextY)[i - 1];
    }
  }

  /**
    On every accepted stroke with pressures each point has one pressure byte: 128 is decoded as
    exactly the neutral pressure, and every other byte as that many 255ths.
   */
  lemma PressureBytesDecode(frame: seq<byte>) returns (k: InkSyntax)
    requires DecodeClient(frame).Some? && frame[2] == 3 && frame[3] % 2 == 1
    ensures IsFrame(frame, InkBody(k)) && DecodeClient(frame).value.payload.InkData?
    ensures var points := DecodeClient(frame).value.payload.ink.points;
            && |points| == |k.points|
            && forall i | 0 <= i < |points| ::
                 && |k.points[i].pressure| == 1
                 && var b := k.points[i].pressure[0];
                 && points[i].pressure == Some(if b == 128 then 0.5 else b as real / 255.0)
  {
    var body := FrameWasThere(frame);
    FrameIsRead(frame, body);
    k := body.ink;
    hide DecodeClient, IsVarint, IsString, BodySource, Groups, Number, PointsMeaning, TimesMeaning;
    forall i | 0 <= i < |k.points|
      ensures PointsMeaning(k.points, 0, 0)[i].pressure == PressureMeaning(k.points[i].pressure)
      ensures |k.points[i].pressure| == 1
    {
      PressuresSaid(k.points, 0, 0, i);
      assert IsPoint(k.points[i], true);
    }
  }

  lemma BodySourceThen(b: BodySyntax, rest: seq<byte>)
    ensures BodySource(b, rest) == BodySource(b, []) + rest
  {
    hide PointsSource, TimesSource;
    match b
    case InkBody(k) =>
      PointsSourceThen(k.points, TimesSource(k.times, []), rest);
      TimesSourceThen(k.times, rest);
    case PointerBody(pageLength, page, x, y) =>
    case TransformBody(blockLength, block, pageLength, page, x, y, width, height, rotation) =>
  }

  lemma {:induction false} PointsSourceThen(points: seq<PointSyntax>, middle: seq<byte>, rest: seq<byte>)
    ensures PointsSource(points, middle + rest) == PointsSource(points, middle) + rest
    decreases |points|
  {
    if points != [] {
      PointsSourceThen(points[1..], middle, rest);
      FourThen(points[0].dx, points[0].dy, points[0].pressure, PointsSource(points[1..], middle), rest);
    }
  }

  lemma FourThen(a: seq<byte>, b: seq<byte>, c: seq<byte>, d: seq<byte>, rest: seq<byte>)
    ensures (a + (b + (c + d))) + rest == a + (b + (c + (d + rest)))
  {
  }

  lemma {:induction false} TimesSourceThen(times: seq<seq<byte>>, rest: seq<byte>)
    ensures TimesSource(times, rest) == TimesSource(times, []) + rest
    decreases |times|
  {
    if times != [] {
      TimesSourceThen(times[1..], rest);
    }
  }
}

/** The same for relayed frames: the trailer at the end of one, and aggregates of several. */
module RelayGrammar {
  import opened Wire
  import opened Wrappers
  import opened Preview
  import opened Relay
  import opened Grammar

  // -------------------------------------------------------------------- trailers

  datatype OptionalSyntax = Absent | Present(length: seq<byte>, text: Text)

  predicate IsOptional(o: OptionalSyntax) {
    o.Present? ==> IsString(o.length, o.text)
  }

  /** A presence byte, then the string if there is one. */
  function OptionalSource(o: OptionalSyntax, rest: seq<byte>): seq<byte> {
    match o
    case Absent => [0] + rest
    case Present(length, text) => [1] + (length + (text + rest))
  }

  function OptionalMeaning(o: OptionalSyntax): Text {
    if o.Present? then o.text else []
  }

  lemma OptionalIsRead(o: OptionalSyntax, rest: seq<byte>)
    requires IsOptional(o)
    ensures ParseOptionalString(OptionalSource(o, rest)) == Parsed(OptionalMeaning(o), rest)
  {
    hide ParseString, IsString;
    var s := OptionalSource(o, rest);
    match o
    case Absent => assert s[1..] == rest;
    case Present(length, text) =>
      assert s[1..] == length + (text + rest);
      StringIsRead(length, text, rest);
  }

  lemma OptionalWasThere(s: seq<byte>) returns (o: OptionalSyntax)
    requires ParseOptionalString(s).Parsed?
    ensures IsOptional(o) && s == OptionalSource(o, ParseOptionalString(s).rest)
    ensures OptionalMeaning(o) == ParseOptionalString(s).value
  {
    hide ParseString, IsString;
    assert s == [s[0]] + s[1..];
    if s[0] == 0 {
      o := Absent;
    } else {
      var length := StringWasThere(s[1..]);
      o := Present(length, ParseString(s[1..]).value);
    }
  }

  /** Message, session and channel, then actor and origin, then eight bytes of time. */
  datatype TrailerSyntax = TrailerSyntax(
    messageLength: seq<byte>, messageId: Text, sessionLength: seq<byte>, sessionId: Text,
    channelLength: seq<byte>, channel: Text, actor: OptionalSyntax, origin: OptionalSyntax, time: seq<byte>)

  predicate IsTrailer(t: TrailerSyntax) {
    && IsString(t.messageLength, t.messageId) && IsString(t.sessionLength, t.sessionId)
    && IsString(t.channelLength, t.channel) && IsOptional(t.actor) && IsOptional(t.origin) && |t.time| == 8
  }

  function StampSource(t: TrailerSyntax): seq<byte> {
    OptionalSource(t.actor, OptionalSource(t.origin, t.time))
  }

  function TrailerSource(t: TrailerSyntax): seq<byte> {
    var fromChannel := t.channelLength + (t.channel + StampSource(t));
    t.messageLength + (t.messageId + (t.sessionLength + (t.sessionId + fromChannel)))
  }

  /** The time is in two's complement. */
  function TrailerMeaning(t: TrailerSyntax, seqNo: uint32): RelayMetadata
    requires IsTrailer(t)
  {
    var n := ReadUint64(t.time);
    RelayMetadata(seqNo, OptionalMeaning(t.actor), OptionalMeaning(t.origin),
                  if n < 0x8000_0000_0000_0000 then n else n - 0x1_0000_0000_0000_0000)
  }

  lemma TrailerIsRead(t: TrailerSyntax, seqNo: uint32)
    requires IsTrailer(t)
    ensures ParseMetadata(TrailerSource(t), seqNo) == Some(TrailerMeaning(t, seqNo))
  {
    hide ParseString, IsString, ParseOptionalString, IsOptional, OptionalSource, OptionalMeaning, ReadUint64;
    var s3 := StampSource(t);
    var s2 := t.channelLength + (t.channel + s3);
    var s1 := t.sessionLength + (t.sessionId + s2);
    StringIsRead(t.messageLength, t.messageId, s1);
    StringIsRead(t.sessionLength, t.sessionId, s2);
    StringIsRead(t.channelLength, t.channel, s3);
    OptionalIsRead(t.actor, OptionalSource(t.origin, t.time));
    OptionalIsRead(t.origin, t.time);
  }

  lemma TrailerWasThere(s: seq<byte>, seqNo: uint32) returns (t: TrailerSyntax)
    requires ParseMetadata(s, seqNo).Some?
    ensures IsTrailer(t) && s == TrailerSource(t)
  {
    hide ParseString, IsString, ParseOptionalString, IsOptional, OptionalSource, OptionalMeaning, ReadUint64;
    var m := StringWasThere(s);
    var s1 := ParseString(s).rest;
    var e := StringWasThere(s1);
    var s2 := ParseString(s1).rest;
    var c := StringWasThere(s2);
    var s3 := ParseString(s2).rest;
    var actor := OptionalWasThere(s3);
    var s4 := ParseOptionalString(s3).rest;
    var origin := OptionalWasThere(s4);
    t := TrailerSyntax(m, ParseString(s).value, e, ParseString(s1).value, c, ParseString(s2).value,
                       actor, origin, ParseOptionalString(s4).rest);
  }

  /** The five strings of a stamped trailer, one after another, are the envelope's. */
  lemma TrailerNamesTheEnvelope(e: Envelope)
    requires |MetadataBytes(e)| <= MAX_UINT16
    ensures var s := MetadataBytes(e);
            var s1 := ParseString(s);
            && s1.Parsed? && s1.value == e.messageId
            && var s2 := ParseString(s1.rest);
            && s2.Parsed? && s2.value == e.sessionId
            && var s3 := ParseString(s2.rest);
            && s3.Parsed? && s3.value == e.channel
            && var s4 := ParseOptionalString(s3.rest);
            && s4.Parsed? && s4.value == e.actorId.GetOr([])
            && var s5 := ParseOptionalString(s4.rest);
            && s5.Parsed? && s5.value == e.origin.GetOr([])
            && s5.rest == LittleEndian(if e.sentAt < 0 then 0 else e.sentAt, 8)
  {
    MetadataStringsFit(e);
    hide StringBytes, ParseString, OptionalStringBytes, ParseOptionalString, LittleEndian;
    SixInARow(StringBytes(e.messageId), StringBytes(e.sessionId), StringBytes(e.channel),
              OptionalStringBytes(e.actorId), OptionalStringBytes(e.origin), LittleEndian(NonNegative(e.sentAt), 8));
    var s5 := LittleEndian(NonNegative(e.sentAt), 8);
    var s4 := OptionalStringBytes(e.origin) + s5;
    var s3 := OptionalStringBytes(e.actorId) + s4;
    var s2 := StringBytes(e.channel) + s3;
    var s1 := StringBytes(e.sessionId) + s2;
    assert MetadataBytes(e) == StringBytes(e.messageId) + s1;
    hide MetadataBytes;
    StringRoundTrip(e.messageId, s1);
    StringRoundTrip(e.sessionId, s2);
    StringRoundTrip(e.channel, s3);
    OptionalStringRoundTrip(e.actorId, s4);
    OptionalStringRoundTrip(e.origin, s5);
  }

  // --------------------------------------------------------------- single frames

  /** A relay frame's trailer stands before the last two bytes, which say how long it is. */
  predicate IsRelayed(data: seq<byte>, t: TrailerSyntax) {
    && |data| >= 10 && data[0] == 0xCB && data[1] == 1 && data[2] != 0xff && data[3] >= 0x80
    && var length := Number(data[|data| - 2], data[|data| - 1], 0, 0);
    && 8 <= |data| - 2 - length
    && IsTrailer(t) && data[|data| - 2 - length..|data| - 2] == TrailerSource(t)
  }

  lemma TwoBytes(s: seq<byte>)
    requires |s| == 2
    ensures ReadUint16(s) == Number(s[0], s[1], 0, 0)
  {
    assert s[1..][1..] == [];
    assert FromLittleEndian(s[1..]) == s[1];
  }

  lemma FooterSays(data: seq<byte>)
    requires |data| >= 10
    ensures var start := |data| - 2 - Number(data[|data| - 2], data[|data| - 1], 0, 0);
            TrailerStart(data) == if start < 8 then None else Some(start)
  {
    TwoBytes(data[|data| - 2..]);
    hide ReadUint16;
  }

  lemma SingleHeader(data: seq<byte>)
    requires ReadHeader(data).Some? && data[2] != 0xff
    ensures ReadHeader(data) == Some(Header(data[2], data[3], Number(data[4], data[5], data[6], data[7])))
    ensures var m := DecodeSingle(data, ReadHeader(data).value);
            DecodeMetadata(data) == if m.None? then None else Some([m.value])
  {
    HeaderSays(data);
    hide DecodeSingle, ReadHeader;
  }

  /** Metadata is read from exactly the frames with a trailer at their end, and is what the trailer says. */
  lemma SingleReadsExactly(data: seq<byte>, m: RelayMetadata)
    requires |data| < 3 || data[2] != 0xff
    ensures DecodeMetadata(data) == Some([m]) <==>
            exists t :: IsRelayed(data, t)
                        && m == TrailerMeaning(t, Number(data[4], data[5], data[6], data[7]))
  {
    if DecodeMetadata(data) == Some([m]) {
      var t := RelayedWasThere(data, m);
    }
    hide IsRelayed, TrailerMeaning, DecodeMetadata;
    forall t | IsRelayed(data, t)
      ensures DecodeMetadata(data) == Some([TrailerMeaning(t, Number(data[4], data[5], data[6], data[7]))])
    {
      RelayedIsRead(data, t);
    }
  }

  /** What the reader does, spelled out: the trailer is where the last two bytes say. */
  lemma SingleFromFooter(data: seq<byte>, start: int)
    requires |data| >= 10 && data[0] == 0xCB && data[1] == 1 && data[2] != 0xff && data[3] >= 0x80
    requires start == |data| - 2 - Number(data[|data| - 2], data[|data| - 1], 0, 0) >= 8
    ensures start <= |data| - 2
    ensures var m := ParseMetadata(data[start..|data| - 2], Number(data[4], data[5], data[6], data[7]));
            DecodeMetadata(data) == if m.None? then None else Some([m.value])
  {
    HeaderSays(data);
    FooterSays(data);
    HighBit(data[3]);
    hide DecodeMetadata, TrailerStart, ReadHeader, ParseMetadata, Number, HasFlag;
    SingleHeader(data);
  }

  lemma HighBit(b: byte)
    ensures HasFlag(b, FLAG_RELAY_METADATA) <==> b >= 0x80
  {
  }

  lemma RelayedIsRead(data: seq<byte>, t: TrailerSyntax)
    requires IsRelayed(data, t)
    ensures DecodeMetadata(data) == Some([TrailerMeaning(t, Number(data[4], data[5], data[6], data[7]))])
  {
    hide DecodeMetadata, ParseMetadata, TrailerSource, TrailerMeaning, IsTrailer, Number;
    SingleFromFooter(data, |data| - 2 - Number(data[|data| - 2], data[|data| - 1], 0, 0));
    TrailerIsRead(t, Number(data[4], data[5], data[6], data[7]));
  }

  lemma RelayedHeader(data: seq<byte>, m: RelayMetadata)
    requires DecodeMetadata(data) == Some([m]) && |data| >= 3 && data[2] != 0xff
    ensures |data| >= 10 && data[0] == 0xCB && data[1] == 1 && data[3] >= 0x80
    ensures |data| - 2 - Number(data[|data| - 2], data[|data| - 1], 0, 0) >= 8
  {
    SingleHeader(data);
    HighBit(data[3]);
    hide DecodeMetadata, ParseMetadata, TrailerStart, Number, HasFlag;
    assert TrailerStart(data).Some?;
    FooterSays(data);
  }

  lemma RelayedWasThere(data: seq<byte>, m: RelayMetadata) returns (t: TrailerSyntax)
    requires DecodeMetadata(data) == Some([m]) && |data| >= 3 && data[2] != 0xff
    ensures IsRelayed(data, t) && m == TrailerMeaning(t, Number(data[4], data[5], data[6], data[7]))
  {
    hide DecodeMetadata, ParseMetadata, TrailerSource, TrailerMeaning, IsTrailer;
    RelayedHeader(data, m);
    var start := |data| - 2 - Number(data[|data| - 2], data[|data| - 1], 0, 0);
    var n := Number(data[4], data[5], data[6], data[7]);
    SingleFromFooter(data, start);
    t := TrailerWasThere(data[start..|data| - 2], n);
    TrailerIsRead(t, n);
  }

  // ------------------------------------------------------------------ aggregates

  /** Two bytes of length before each child. */
  function ChildrenSource(children: seq<seq<byte>>): seq<byte>
    requires forall i | 0 <= i < |children| :: |children[i]| < 0x1_0000
  {
    if children == [] then []
    else
      [|children[0]| % 0x100, |children[0]| / 0x100] + (children[0] + ChildrenSource(children[1..]))
  }

  /** Every child is there and is one relayed frame, or an aggregate that holds just one. */
  predicate EachTells(children: seq<seq<byte>>, ms: seq<RelayMetadata>) {
    && |children| == |ms|
    && (forall i | 0 <= i < |children| ::
          0 < |children[i]| < 0x1_0000 && DecodeMetadata(children[i]) == Some([ms[i]]))
  }

  predicate IsAggregate(data: seq<byte>, children: seq<seq<byte>>, ms: seq<RelayMetadata>) {
    && |data| >= 10 && data[0] == 0xCB && data[1] == 1 && data[2] == 0xff && data[3] == 0
    && EachTells(children, ms) && |children| == Number(data[8], data[9], 0, 0)
    && data[10..] == ChildrenSource(children)
  }

  lemma ChildIsFirst(child: seq<byte>, rest: seq<byte>)
    requires 0 < |child| < 0x1_0000
    ensures var s := [|child| % 0x100, |child| / 0x100] + (child + rest);
            && |s| >= 2 && ReadUint16(s[..2]) == |child|
            && 2 + |child| <= |s| && s[2..2 + |child|] == child && s[2 + |child|..] == rest
  {
    var s := [|child| % 0x100, |child| / 0x100] + (child + rest);
    TwoBytes(s[..2]);
    hide ReadUint16;
  }

  lemma {:induction false} ChildrenAreRead(children: seq<seq<byte>>, ms: seq<RelayMetadata>)
    requires EachTells(children, ms)
    ensures DecodeChildren(ChildrenSource(children), |children|) == Some(ms)
    decreases |children|
  {
    hide DecodeMetadata, ReadUint16;
    if children != [] {
      ChildIsFirst(children[0], ChildrenSource(children[1..]));
      ChildrenAreRead(children[1..], ms[1..]);
      assert [ms[0]] + ms[1..] == ms;
    }
  }

  lemma FirstChild(s: seq<byte>, count: nat) returns (child: seq<byte>, rest: seq<byte>)
    requires count > 0 && DecodeChildren(s, count).Some?
    ensures 0 < |child| < 0x1_0000 && s == [|child| % 0x100, |child| / 0x100] + (child + rest)
    ensures var ms := DecodeChildren(s, count).value;
            && ms != [] && DecodeMetadata(child) == Some([ms[0]])
            && DecodeChildren(rest, count - 1) == Some(ms[1..])
  {
    hide DecodeMetadata, ReadUint16;
    var size := ReadUint16(s[..2]);
    child, rest := s[2..2 + size], s[2 + size..];
    SizeBytes(s, size);
    var first := DecodeMetadata(child).value;
    assert first == [first[0]];
  }

  lemma SizeBytes(s: seq<byte>, size: nat)
    requires |s| >= 2 + size && size == ReadUint16(s[..2])
    ensures s == [size % 0x100, size / 0x100] + (s[2..2 + size] + s[2 + size..])
  {
    TwoBytes(s[..2]);
    hide ReadUint16;
  }

  lemma {:induction false} ChildrenWereThere(s: seq<byte>, count: nat) returns (children: seq<seq<byte>>)
    requires DecodeChildren(s, count).Some?
    ensures EachTells(children, DecodeChildren(s, count).value) && s == ChildrenSource(children)
    decreases count
  {
    if count == 0 {
      children := [];
    } else {
      hide DecodeMetadata, DecodeChildren;
      var child, rest := FirstChild(s, count);
      var tail := ChildrenWereThere(rest, count - 1);
      children := [child] + tail;
      assert children[1..] == tail;
      EachTellsOneMore(child, tail, DecodeChildren(s, count).value);
    }
  }

  lemma EachTellsOneMore(child: seq<byte>, tail: seq<seq<byte>>, ms: seq<RelayMetadata>)
    requires ms != [] && EachTells(tail, ms[1..])
    requires 0 < |child| < 0x1_0000 && DecodeMetadata(child) == Some([ms[0]])
    ensures EachTells([child] + tail, ms)
  {
    hide DecodeMetadata;
  }

  lemma AggregateHeader(data: seq<byte>)
    requires |data| >= 10 && data[0] == 0xCB && data[1] == 1 && data[2] == 0xff && data[3] == 0
    ensures DecodeMetadata(data) == DecodeChildren(data[10..], Number(data[8], data[9], 0, 0))
  {
    HeaderSays(data);
    TwoBytes(data[8..10]);
    hide ReadHeader, DecodeChildren, ReadUint16, Number;
  }

  /** An aggregate is read exactly when its children fill it and each tells of one frame, and tells those in order. */
  lemma AggregateReadsExactly(data: seq<byte>, ms: seq<RelayMetadata>)
    requires |data| >= 3 && data[2] == 0xff
    ensures DecodeMetadata(data) == Some(ms) <==> exists children :: IsAggregate(data, children, ms)
  {
    if DecodeMetadata(data) == Some(ms) {
      AggregateShape(data);
      AggregateHeader(data);
      hide DecodeMetadata, DecodeChildren;
      var children := ChildrenWereThere(data[10..], Number(data[8], data[9], 0, 0));
      assert IsAggregate(data, children, ms);
    }
    hide DecodeMetadata, DecodeChildren;
    forall children | IsAggregate(data, children, ms) ensures DecodeMetadata(data) == Some(ms) {
      AggregateHeader(data);
      ChildrenAreRead(children, ms);
    }
  }

  lemma AggregateShape(data: seq<byte>)
    requires |data| >= 3 && data[2] == 0xff && DecodeMetadata(data).Some?
    ensures |data| >= 10 && data[0] == 0xCB && data[1] == 1 && data[3] == 0
  {
    hide DecodeChildren;
  }
}
