/** The grammar of the four preview events and of client and relay frames. */
module Preview {
  import opened Wire
  import opened Wrappers
  import opened Quantization
  import opened Ink

  const MAGIC: byte := 0xCB
  const VERSION: byte := 1
  const HEADER_SIZE := 8
  const CODE_CURSOR: byte := 1
  const CODE_LASER: byte := 2
  const CODE_INK: byte := 3
  const CODE_TRANSFORM: byte := 4
  const CODE_AGGREGATE: byte := 0xff
  const FLAG_RELAY_METADATA: byte := 0x80
  const MAX_UINT16 := 0xffff
  const ENVELOPE_VERSION := 2

  datatype PointerPayload = PointerPayload(pageId: Text, x: real, y: real)

  datatype TransformPayload = TransformPayload(
    blockId: Text, pageId: Text, x: real, y: real, width: real, height: real, rotation: real)

  /** The JSON payload of a preview, as a typed record. */
  datatype Payload =
    | InkData(ink: InkPayload)
    | PointerData(pointer: PointerPayload)
    | TransformData(transform: TransformPayload)
  {
    // Unmarshalling into another record keeps the fields both have and zeroes the rest.

    function AsInk(): InkPayload {
      if InkData? then ink else InkPayload([], [])
    }

    function AsPointer(): PointerPayload {
      match this
      case InkData(_) => PointerPayload([], 0.0, 0.0)
      case PointerData(p) => p
      case TransformData(t) => PointerPayload(t.pageId, t.x, t.y)
    }

    function AsTransform(): TransformPayload {
      match this
      case InkData(_) => TransformPayload([], [], 0.0, 0.0, 0.0, 0.0, 0.0)
      case PointerData(p) => TransformPayload([], p.pageId, p.x, p.y, 0.0, 0.0, 0.0)
      case TransformData(t) => t
    }
  }

  predicate IdsAreUtf8(p: Payload) {
    match p
    case InkData(ink) => ValidUtf8(ink.strokeId)
    case PointerData(pointer) => ValidUtf8(pointer.pageId)
    case TransformData(transform) => ValidUtf8(transform.blockId) && ValidUtf8(transform.pageId)
  }

  datatype Envelope = Envelope(
    v: int, messageId: Text, sessionId: Text, channel: Text, event: string,
    actorId: Option<Text>, origin: Option<Text>, seqNo: Option<uint64>, sentAt: int64, payload: Payload)

  // -------------------------------------------------------------------- pointers

  predicate PointerEncodable(p: PointerPayload) {
    p.pageId != [] && QuantizedSigned(p.x).Some? && QuantizedSigned(p.y).Some?
  }

  function PointerBytes(p: PointerPayload): seq<byte>
    requires PointerEncodable(p)
  {
    StringBytes(p.pageId) + SvarintBytes(Quarters(p.x)) + SvarintBytes(Quarters(p.y))
  }

  function ParsePointer(s: seq<byte>): (p: Parse<PointerPayload>) {
    var (pageId, s1) :- ParseString(s);
    if pageId == [] then Malformed
    else
      var (x, s2) :- ParseSvarint(s1);
      var (y, s3) :- ParseSvarint(s2);
      Parsed(PointerPayload(pageId, Dequantize(x), Dequantize(y)), s3)
  }

  function ReceivedPointer(p: PointerPayload): PointerPayload {
    PointerPayload(p.pageId, Dequantize(Quarters(p.x)), Dequantize(Quarters(p.y)))
  }

  lemma PointerReadsBack(p: PointerPayload, rest: seq<byte>)
    requires PointerEncodable(p) && |p.pageId| < 0x1_0000_0000
    ensures ParsePointer(PointerBytes(p) + rest) == Parsed(ReceivedPointer(p), rest)
  {
    hide StringBytes, ParseString, SvarintBytes, ParseSvarint;
    var s2 := SvarintBytes(Quarters(p.y)) + rest;
    var s1 := SvarintBytes(Quarters(p.x)) + s2;
    assert PointerBytes(p) + rest == StringBytes(p.pageId) + s1;
    StringRoundTrip(p.pageId, s1);
    SvarintRoundTrip(Quarters(p.x), s2);
    SvarintRoundTrip(Quarters(p.y), rest);
  }

  lemma PointerReencodes(s: seq<byte>)
    requires ParsePointer(s).Parsed?
    ensures var p := ParsePointer(s);
            && PointerEncodable(p.value) && |p.value.pageId| < 0x1_0000_0000
            && ReceivedPointer(p.value) == p.value
            && |PointerBytes(p.value)| + |p.rest| <= |s|
  {
    hide StringBytes, ParseString, SvarintBytes, ParseSvarint;
    var id := ParseString(s);
    var x := ParseSvarint(id.rest);
    var y := ParseSvarint(x.rest);
    StringShrinks(s);
    SvarintShrinks(id.rest);
    SvarintShrinks(x.rest);
    QuantizeAfterDequantize(x.value);
    QuantizeAfterDequantize(y.value);
  }

  // ------------------------------------------------------------------ transforms

  predicate TransformEncodable(t: TransformPayload) {
    && t.blockId != [] && t.pageId != []
    && QuantizedSigned(t.x).Some? && QuantizedSigned(t.y).Some?
    && QuantizedUnsigned(t.width).Some? && QuantizedUnsigned(t.height).Some?
    && QuantizedRotation(t.rotation).Some?
  }

  function TransformBytes(t: TransformPayload): seq<byte>
    requires TransformEncodable(t)
  {
    StringBytes(t.blockId) + StringBytes(t.pageId) + GeometryBytes(t)
  }

  function GeometryBytes(t: TransformPayload): seq<byte>
    requires TransformEncodable(t)
  {
    SvarintBytes(QuantizedSigned(t.x).value) + SvarintBytes(QuantizedSigned(t.y).value)
    + VarintBytes(QuantizedUnsigned(t.width).value) + VarintBytes(QuantizedUnsigned(t.height).value)
    + SvarintBytes(QuantizedRotation(t.rotation).value)
  }

  function ParseTransform(s: seq<byte>): (p: Parse<TransformPayload>) {
    var (blockId, s1) :- ParseString(s);
    if blockId == [] then Malformed
    else
      var (pageId, s2) :- ParseString(s1);
      if pageId == [] then Malformed
      else ParseGeometry(s2, blockId, pageId)
  }

  function ParseGeometry(s: seq<byte>, blockId: Text, pageId: Text): (p: Parse<TransformPayload>) {
    var (x, s3) :- ParseSvarint(s);
    var (y, s4) :- ParseSvarint(s3);
    var (width, s5) :- ParseVarint(s4);
    var (height, s6) :- ParseVarint(s5);
    var (rotation, s7) :- ParseSvarint(s6);
    Parsed(TransformPayload(blockId, pageId, Dequantize(x), Dequantize(y),
                            Dequantize(width), Dequantize(height), DequantizeRotation(rotation)), s7)
  }

  function ReceivedTransform(t: TransformPayload): TransformPayload
    requires TransformEncodable(t)
  {
    TransformPayload(t.blockId, t.pageId,
                     Dequantize(QuantizedSigned(t.x).value), Dequantize(QuantizedSigned(t.y).value),
                     Dequantize(QuantizedUnsigned(t.width).value), Dequantize(QuantizedUnsigned(t.height).value),
                     DequantizeRotation(QuantizedRotation(t.rotation).value))
  }

  lemma GeometryReadsBack(t: TransformPayload, rest: seq<byte>)
    requires TransformEncodable(t)
    ensures ParseGeometry(GeometryBytes(t) + rest, t.blockId, t.pageId) == Parsed(ReceivedTransform(t), rest)
  {
    hide SvarintBytes, ParseSvarint, VarintBytes, ParseVarint;
    hide QuantizedSigned, QuantizedUnsigned, QuantizedRotation, Dequantize, DequantizeRotation;
    var x, y := QuantizedSigned(t.x).value, QuantizedSigned(t.y).value;
    var width, height := QuantizedUnsigned(t.width).value, QuantizedUnsigned(t.height).value;
    var rotation := QuantizedRotation(t.rotation).value;
    var s6 := SvarintBytes(rotation) + rest;
    var s5 := VarintBytes(height) + s6;
    var s4 := VarintBytes(width) + s5;
    var s3 := SvarintBytes(y) + s4;
    assert GeometryBytes(t) + rest == SvarintBytes(x) + s3;
    SvarintRoundTrip(x, s3);
    SvarintRoundTrip(y, s4);
    VarintRoundTrip(width, s5);
    VarintRoundTrip(height, s6);
    SvarintRoundTrip(rotation, rest);
  }

  lemma TransformReadsBack(t: TransformPayload, rest: seq<byte>)
    requires TransformEncodable(t) && |t.blockId| < 0x1_0000_0000 && |t.pageId| < 0x1_0000_0000
    ensures ParseTransform(TransformBytes(t) + rest) == Parsed(ReceivedTransform(t), rest)
  {
    hide StringBytes, ParseString, GeometryBytes, ParseGeometry, ReceivedTransform;
    var s2 := GeometryBytes(t) + rest;
    var s1 := StringBytes(t.pageId) + s2;
    assert TransformBytes(t) + rest == StringBytes(t.blockId) + s1;
    StringRoundTrip(t.blockId, s1);
    StringRoundTrip(t.pageId, s2);
    GeometryReadsBack(t, rest);
  }

  lemma OnGrid(q: int32, u: uint32, r: int32)
    ensures QuantizedSigned(Dequantize(q)) == Some(q)
    ensures QuantizedUnsigned(Dequantize(u)) == Some(u)
    ensures QuantizedRotation(DequantizeRotation(r)) == Some(r)
  {
    QuantizeAfterDequantize(q);
    QuantizeAfterDequantize(u);
    QuantizeAfterDequantize(r);
  }

  lemma GeometryReencodes(s: seq<byte>, blockId: Text, pageId: Text)
    requires blockId != [] && pageId != []
    requires ParseGeometry(s, blockId, pageId).Parsed?
    ensures var p := ParseGeometry(s, blockId, pageId);
            && TransformEncodable(p.value) && ReceivedTransform(p.value) == p.value
            && |GeometryBytes(p.value)| + |p.rest| <= |s|
  {
    hide SvarintBytes, ParseSvarint, VarintBytes, ParseVarint;
    hide QuantizedSigned, QuantizedUnsigned, QuantizedRotation, Dequantize, DequantizeRotation;
    var x := ParseSvarint(s);
    var y := ParseSvarint(x.rest);
    var width := ParseVarint(y.rest);
    var height := ParseVarint(width.rest);
    var rotation := ParseSvarint(height.rest);
    SvarintShrinks(s);
    SvarintShrinks(x.rest);
    VarintShrinks(y.rest);
    VarintShrinks(width.rest);
    SvarintShrinks(height.rest);
    OnGrid(x.value, width.value, rotation.value);
    OnGrid(y.value, height.value, rotation.value);
  }

  lemma TransformReencodes(s: seq<byte>)
    requires ParseTransform(s).Parsed?
    ensures var p := ParseTransform(s);
            && TransformEncodable(p.value)
            && |p.value.blockId| < 0x1_0000_0000 && |p.value.pageId| < 0x1_0000_0000
            && ReceivedTransform(p.value) == p.value
            && |TransformBytes(p.value)| + |p.rest| <= |s|
  {
    hide StringBytes, ParseString, GeometryBytes, ReceivedTransform, TransformEncodable;
    var block := ParseString(s);
    var page := ParseString(block.rest);
    StringShrinks(s);
    StringShrinks(block.rest);
    GeometryReencodes(page.rest, block.value, page.value);
    GeometryKeepsIds(page.rest, block.value, page.value);
  }

  lemma GeometryKeepsIds(s: seq<byte>, blockId: Text, pageId: Text)
    requires ParseGeometry(s, blockId, pageId).Parsed?
    ensures var t := ParseGeometry(s, blockId, pageId).value;
            t.blockId == blockId && t.pageId == pageId
  {
    hide ParseSvarint, ParseVarint;
  }

  // ---------------------------------------------------------------- frame bodies

  function EventCode(event: string): Option<byte> {
    if event == "cursor.moved" then Some(CODE_CURSOR)
    else if event == "laser.moved" then Some(CODE_LASER)
    else if event == "ink.points" then Some(CODE_INK)
    else if event == "block.transform.preview" then Some(CODE_TRANSFORM)
    else None
  }

  function EventOf(code: byte): (event: string)
    requires code in {CODE_CURSOR, CODE_LASER, CODE_INK, CODE_TRANSFORM}
    ensures EventCode(event) == Some(code)
  {
    if code == CODE_CURSOR then "cursor.moved"
    else if code == CODE_LASER then "laser.moved"
    else if code == CODE_INK then "ink.points"
    else "block.transform.preview"
  }

  predicate BodyEncodable(code: byte, p: Payload) {
    if code == CODE_INK then Encodable(p.AsInk())
    else if code == CODE_TRANSFORM then TransformEncodable(p.AsTransform())
    else PointerEncodable(p.AsPointer())
  }

  /** Every id the body carries has a length that its 32-bit prefix can hold. */
  predicate BodyIdsFit(code: byte, p: Payload) {
    if code == CODE_INK then |p.AsInk().strokeId| < 0x1_0000_0000
    else if code == CODE_TRANSFORM then
      |p.AsTransform().blockId| < 0x1_0000_0000 && |p.AsTransform().pageId| < 0x1_0000_0000
    else |p.AsPointer().pageId| < 0x1_0000_0000
  }

  function BodyFlags(code: byte, p: Payload): (flags: byte)
    ensures flags < 4
  {
    if code == CODE_INK then InkFlags(p.AsInk().points) else 0
  }

  function BodyBytes(code: byte, p: Payload): seq<byte>
    requires BodyEncodable(code, p)
  {
    if code == CODE_INK then InkBytes(p.AsInk())
    else if code == CODE_TRANSFORM then TransformBytes(p.AsTransform())
    else PointerBytes(p.AsPointer())
  }

  function ParseBody(code: byte, flags: byte, s: seq<byte>): (p: Parse<Payload>)
    ensures p.Parsed? ==> code in {CODE_CURSOR, CODE_LASER, CODE_INK, CODE_TRANSFORM} && flags < 4
  {
    if code == CODE_INK then
      if flags >= 4 then Malformed
      else
        var (ink, rest) :- ParseInk(s, flags);
        Parsed(InkData(ink), rest)
    else if flags != 0 then
      Malformed
    else if code == CODE_CURSOR || code == CODE_LASER then
      var (pointer, rest) :- ParsePointer(s);
      Parsed(PointerData(pointer), rest)
    else if code == CODE_TRANSFORM then
      var (transform, rest) :- ParseTransform(s);
      Parsed(TransformData(transform), rest)
    else
      Malformed
  }

  /** A payload after one trip over the wire. */
  function ReceivedBody(code: byte, p: Payload): Payload
    requires BodyEncodable(code, p)
  {
    if code == CODE_INK then InkData(Received(p.AsInk()))
    else if code == CODE_TRANSFORM then TransformData(ReceivedTransform(p.AsTransform()))
    else PointerData(ReceivedPointer(p.AsPointer()))
  }

  /** The payload itself, except that the times of a stroke no longer go back. */
  function SteadiedPayload(p: Payload): Payload {
    if p.InkData? then InkData(Steadied(p.ink)) else p
  }

  lemma BodyReadsBack(code: byte, p: Payload, rest: seq<byte>)
    requires code in {CODE_CURSOR, CODE_LASER, CODE_INK, CODE_TRANSFORM}
    requires BodyEncodable(code, p) && BodyIdsFit(code, p)
    ensures ParseBody(code, BodyFlags(code, p), BodyBytes(code, p) + rest) == Parsed(ReceivedBody(code, p), rest)
  {
    hide ParseInk, InkBytes, InkFlags, Encodable, Received, ParsePointer, PointerBytes, ReceivedPointer;
    hide PointerEncodable, ParseTransform, TransformBytes, ReceivedTransform, TransformEncodable;
    if code == CODE_INK {
      InkReadsBack(p.AsInk(), rest);
    } else if code == CODE_TRANSFORM {
      TransformReadsBack(p.AsTransform(), rest);
    } else {
      PointerReadsBack(p.AsPointer(), rest);
    }
  }

  lemma BodyReencodes(code: byte, flags: byte, s: seq<byte>)
    requires ParseBody(code, flags, s).Parsed?
    ensures var p := ParseBody(code, flags, s);
            && BodyEncodable(code, p.value) && BodyIdsFit(code, p.value)
            && ReceivedBody(code, p.value) == SteadiedPayload(p.value)
            && |BodyBytes(code, p.value)| + |p.rest| <= |s|
  {
    hide ParseInk, InkBytes, Encodable, Received, Steadied, ParsePointer, PointerBytes, ReceivedPointer;
    hide PointerEncodable, ParseTransform, TransformBytes, ReceivedTransform, TransformEncodable;
    if code == CODE_INK {
      InkReencodes(s, flags);
    } else if code == CODE_TRANSFORM {
      TransformReencodes(s);
    } else {
      PointerReencodes(s);
    }
  }

  // -------------------------------------------------------------- client frames

  datatype Header = Header(code: byte, flags: byte, seqNo: uint32)

  function HeaderBytes(h: Header): (s: seq<byte>)
    ensures |s| == HEADER_SIZE
  {
    [MAGIC, VERSION, h.code, h.flags] + LittleEndian(h.seqNo, 4)
  }

  predicate IsBinaryFrame(data: seq<byte>) {
    |data| >= HEADER_SIZE && data[0] == MAGIC
  }

  function ReadHeader(data: seq<byte>): (h: Option<Header>)
    ensures h.Some? ==> |data| >= HEADER_SIZE
  {
    if !IsBinaryFrame(data) || data[1] != VERSION then None
    else Some(Header(data[2], data[3], ReadUint32(data[4..8])))
  }

  lemma HeaderRoundTrip(h: Header, rest: seq<byte>)
    ensures ReadHeader(HeaderBytes(h) + rest) == Some(h)
    ensures (HeaderBytes(h) + rest)[HEADER_SIZE..] == rest
  {
    var data := HeaderBytes(h) + rest;
    assert data[4..8] == LittleEndian(h.seqNo, 4);
    Pow256Values();
    LittleEndianRoundTrip(h.seqNo, 4);
  }

  /** A missing sequence is written as zero; one beyond 32 bits is refused. */
  function EnvelopeSeq(seqNo: Option<uint64>): Option<uint32> {
    if seqNo.None? then Some(0)
    else if seqNo.value > 0xffff_ffff then None
    else Some(seqNo.value)
  }

  /** The header and body that both frame kinds share, or nothing for what stays JSON. */
  predicate Compact(e: Envelope) {
    && EventCode(e.event).Some?
    && EnvelopeSeq(e.seqNo).Some?
    && BodyEncodable(EventCode(e.event).value, e.payload)
  }

  function CompactHeader(e: Envelope): Header
    requires Compact(e)
  {
    var code := EventCode(e.event).value;
    Header(code, BodyFlags(code, e.payload), EnvelopeSeq(e.seqNo).value)
  }

  function CompactBody(e: Envelope): seq<byte>
    requires Compact(e)
  {
    BodyBytes(EventCode(e.event).value, e.payload)
  }

  function ClientFrame(e: Envelope): Option<seq<byte>> {
    if Compact(e) then Some(HeaderBytes(CompactHeader(e)) + CompactBody(e)) else None
  }

  function DecodedEnvelope(code: byte, seqNo: uint32, payload: Payload): Envelope
    requires code in {CODE_CURSOR, CODE_LASER, CODE_INK, CODE_TRANSFORM}
  {
    Envelope(ENVELOPE_VERSION, [], [], [], EventOf(code), None, None,
             if seqNo != 0 then Some(seqNo) else None, 0, payload)
  }

  function DecodeClient(data: seq<byte>): (e: Option<Envelope>) {
    var h := ReadHeader(data);
    if h.None? || HasFlag(h.value.flags, FLAG_RELAY_METADATA) then None
    else
      var p := ParseBody(h.value.code, h.value.flags, data[HEADER_SIZE..]);
      if p.Malformed? || p.rest != [] then None
      else Some(DecodedEnvelope(h.value.code, h.value.seqNo, p.value))
  }

  /** What the receiver of a compact frame should see. */
  function ReceivedEnvelope(e: Envelope): Envelope
    requires Compact(e)
  {
    var code := EventCode(e.event).value;
    DecodedEnvelope(code, EnvelopeSeq(e.seqNo).value, ReceivedBody(code, e.payload))
  }

  /** A client frame reads back as what its receiver should see, exactly when its ids fit their prefix. */
  lemma ClientRoundTrip(e: Envelope)
    requires Compact(e)
    ensures DecodeClient(ClientFrame(e).value) == Some(ReceivedEnvelope(e))
       <==> BodyIdsFit(EventCode(e.event).value, e.payload)
  {
    hide ParseBody, BodyBytes, BodyFlags, ReceivedBody, BodyIdsFit, BodyEncodable, HeaderBytes, ReadHeader;
    var code := EventCode(e.event).value;
    var body := CompactBody(e);
    HeaderRoundTrip(CompactHeader(e), body);
    if BodyIdsFit(code, e.payload) {
      BodyReadsBack(code, e.payload, []);
      assert body + [] == body;
    } else if ParseBody(code, BodyFlags(code, e.payload), body).Parsed? {
      BodyReencodes(code, BodyFlags(code, e.payload), body);
      ReceivedKeepsIds(code, e.payload);
    }
  }

  /** A transform as its receiver sees it: sizes as near as places, the angle to half a hundredth. */
  lemma TransformAccuracy(t: TransformPayload)
    requires TransformEncodable(t) && |t.blockId| < 0x1_0000_0000 && |t.pageId| < 0x1_0000_0000
    ensures var got := ParseTransform(TransformBytes(t));
            && got.Parsed? && got.rest == []
            && got.value.blockId == t.blockId && got.value.pageId == t.pageId
            && Distance(got.value.x, t.x) <= 0.125 && Distance(got.value.y, t.y) <= 0.125
            && Distance(got.value.width, t.width) <= 0.125 && Distance(got.value.height, t.height) <= 0.125
            && Distance(got.value.rotation, t.rotation) <= 0.005
  {
    hide TransformBytes, ParseTransform, Quarters, Dequantize, DequantizeRotation, RoundLikeJavaScript;
    TransformReadsBack(t, []);
    assert TransformBytes(t) + [] == TransformBytes(t);
    QuantizationError(t.x);
    QuantizationError(t.y);
    QuantizationError(t.width);
    QuantizationError(t.height);
    RotationError(t.rotation);
  }

  lemma PointerAccuracy(p: PointerPayload)
    requires PointerEncodable(p) && |p.pageId| < 0x1_0000_0000
    ensures var got := ParsePointer(PointerBytes(p));
            && got.Parsed? && got.rest == [] && got.value.pageId == p.pageId
            && Distance(got.value.x, p.x) <= 0.125 && Distance(got.value.y, p.y) <= 0.125
  {
    hide PointerBytes, ParsePointer, Quarters, Dequantize;
    PointerReadsBack(p, []);
    assert PointerBytes(p) + [] == PointerBytes(p);
    QuantizationError(p.x);
    QuantizationError(p.y);
  }

  predicate CoordinateFits(v: real) {
    -536870912.125 <= v < 536870911.875
  }

  predicate SizeFits(v: real) {
    -0.125 <= v < 1073741823.875
  }

  /**
    Exactly which envelopes become binary frames: the four events, a sequence of 32 bits or
    none, the ids that must be there, at most 4096 points, and numbers on the grid.
   */
  lemma CompactExactlyWhen(e: Envelope)
    ensures Compact(e) <==>
              && (e.seqNo.Some? ==> e.seqNo.value < 0x1_0000_0000)
              && (|| (&& (e.event == "cursor.moved" || e.event == "laser.moved")
                      && var p := e.payload.AsPointer();
                      && p.pageId != [] && CoordinateFits(p.x) && CoordinateFits(p.y))
                  || (&& e.event == "ink.points"
                      && var k := e.payload.AsInk();
                      && k.strokeId != [] && |k.points| <= 4096
                      && forall i | 0 <= i < |k.points| ::
                           CoordinateFits(k.points[i].x) && CoordinateFits(k.points[i].y))
                  || (&& e.event == "block.transform.preview"
                      && var t := e.payload.AsTransform();
                      && t.blockId != [] && t.pageId != []
                      && CoordinateFits(t.x) && CoordinateFits(t.y) && SizeFits(t.width) && SizeFits(t.height)
                      && -21474836.485 <= t.rotation < 21474836.475))
  {
    forall v ensures QuantizedSigned(v).Some? <==> CoordinateFits(v)
             ensures QuantizedUnsigned(v).Some? <==> SizeFits(v)
             ensures QuantizedRotation(v).Some? <==> -21474836.485 <= v < 21474836.475 {
      EncodableRanges(v);
    }
    hide QuantizedSigned, QuantizedUnsigned, QuantizedRotation, CoordinateFits, SizeFits;
    if e.event == "ink.points" {
      var k := e.payload.AsInk();
      assert AllFit(k.points) <==> forall i | 0 <= i < |k.points| ::
        CoordinateFits(k.points[i].x) && CoordinateFits(k.points[i].y) by {
        FitsByRange(k.points);
      }
    }
  }

  lemma FitsByRange(points: seq<InkPoint>)
    ensures AllFit(points) <==> forall i | 0 <= i < |points| ::
              CoordinateFits(points[i].x) && CoordinateFits(points[i].y)
  {
    forall i | 0 <= i < |points|
      ensures Fits(points[i]) <==> CoordinateFits(points[i].x) && CoordinateFits(points[i].y)
    {
      EncodableRanges(points[i].x);
      EncodableRanges(points[i].y);
    }
  }

  lemma ReceivedKeepsIds(code: byte, p: Payload)
    requires BodyEncodable(code, p)
    ensures BodyIdsFit(code, ReceivedBody(code, p)) == BodyIdsFit(code, p)
  {
    hide Encodable, PointerEncodable, TransformEncodable, Quarters, Dequantize, DequantizeRotation;
    hide QuantizedSigned, QuantizedUnsigned, QuantizedRotation, ReceivedPoints, RunningMax;
  }

  /** No frame can claim more points than its bytes can hold. */
  lemma AcceptedInkBound(frame: seq<byte>)
    requires DecodeClient(frame).Some? && DecodeClient(frame).value.payload.InkData?
    ensures var points := DecodeClient(frame).value.payload.ink.points;
            |points| <= 4096 && 2 * |points| + 11 <= |frame|
  {
    hide ReadHeader, ParsePointer, ParseTransform, HasFlag;
    var h := ReadHeader(frame).value;
    assert ParseInk(frame[HEADER_SIZE..], h.flags).Parsed?;
  }
}
