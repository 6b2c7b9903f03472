/** The codec's entry points, each proved against the grammar of `Preview` and `Relay`. */
module FrameCodec {
  import opened Wire
  import opened Wrappers
  import opened Quantization
  import opened Ink
  import opened InkCodec
  import opened Preview
  import opened Relay

  method EncodePointer(w: Writer, p: PointerPayload) returns (ok: bool)
    modifies w
    ensures ok == PointerEncodable(p)
    ensures ok ==> w.buf == old(w.buf) + PointerBytes(p)
  {
    hide StringBytes, SvarintBytes;
    if p.pageId == [] {
      return false;
    }
    var x := QuantizedSigned(p.x);
    var y := QuantizedSigned(p.y);
    if x.None? || y.None? {
      return false;
    }
    w.String(p.pageId);
    w.Svarint(x.value);
    w.Svarint(y.value);
    ok := true;
  }

  method EncodeTransform(w: Writer, t: TransformPayload) returns (ok: bool)
    modifies w
    ensures ok == TransformEncodable(t)
    ensures ok ==> w.buf == old(w.buf) + TransformBytes(t)
  {
    hide StringBytes, SvarintBytes, VarintBytes, QuantizedSigned, QuantizedUnsigned, QuantizedRotation;
    if t.blockId == [] || t.pageId == [] {
      return false;
    }
    var x, y := QuantizedSigned(t.x), QuantizedSigned(t.y);
    var width, height := QuantizedUnsigned(t.width), QuantizedUnsigned(t.height);
    var rotation := QuantizedRotation(t.rotation);
    if x.None? || y.None? || width.None? || height.None? || rotation.None? {
      return false;
    }
    w.String(t.blockId);
    w.String(t.pageId);
    w.Svarint(x.value);
    w.Svarint(y.value);
    w.Varint(width.value);
    w.Varint(height.value);
    w.Svarint(rotation.value);
    ok := true;
  }

  method DecodePointer(r: Reader) returns (result: Option<PointerPayload>)
    requires r.Valid()
    modifies r
    ensures r.Reads(ParsePointer(old(r.Rest())), result)
  {
    hide ParseString, ParseSvarint;
    var pageId := r.String();
    if pageId.None? || pageId.value == [] {
      return None;
    }
    var x := r.Svarint();
    if x.None? {
      return None;
    }
    var y := r.Svarint();
    if y.None? {
      return None;
    }
    result := Some(PointerPayload(pageId.value, Dequantize(x.value), Dequantize(y.value)));
  }

  method DecodeTransform(r: Reader) returns (result: Option<TransformPayload>)
    requires r.Valid()
    modifies r
    ensures r.Reads(ParseTransform(old(r.Rest())), result)
  {
    hide ParseString, ParseSvarint, ParseVarint, Dequantize, DequantizeRotation;
    var blockId := r.String();
    if blockId.None? || blockId.value == [] {
      return None;
    }
    var pageId := r.String();
    if pageId.None? || pageId.value == [] {
      return None;
    }
    var x := r.Svarint();
    if x.None? {
      return None;
    }
    var y := r.Svarint();
    if y.None? {
      return None;
    }
    var width := r.Varint();
    if width.None? {
      return None;
    }
    var height := r.Varint();
    if height.None? {
      return None;
    }
    var rotation := r.Svarint();
    if rotation.None? {
      return None;
    }
    result := Some(TransformPayload(blockId.value, pageId.value, Dequantize(x.value), Dequantize(y.value),
                                    Dequantize(width.value), Dequantize(height.value),
                                    DequantizeRotation(rotation.value)));
  }

  /** Header and body, the part both frame kinds share; `None` for what stays JSON. */
  method EncodeCompact(e: Envelope) returns (w: Writer, ok: bool)
    ensures fresh(w)
    ensures ok == Compact(e)
    ensures ok ==> w.buf == HeaderBytes(CompactHeader(e)) + CompactBody(e)
  {
    hide Encodable, InkBytes, InkFlags, PointerEncodable, PointerBytes, TransformEncodable, TransformBytes;
    hide LittleEndian;
    w := new Writer();
    var code := EventCode(e.event);
    if code.None? {
      return w, false;
    }
    var seqNo := EnvelopeSeq(e.seqNo);
    if seqNo.None? {
      return w, false;
    }
    w.buf := HeaderBytes(Header(code.value, 0, seqNo.value));
    if code.value == CODE_INK {
      ok := EncodeInk(w, e.payload.AsInk());
    } else if code.value == CODE_TRANSFORM {
      ok := EncodeTransform(w, e.payload.AsTransform());
    } else {
      ok := EncodePointer(w, e.payload.AsPointer());
    }
    if ok {
      assert HeaderBytes(Header(code.value, 0, seqNo.value))[3 := BodyFlags(code.value, e.payload)]
          == HeaderBytes(CompactHeader(e));
    }
  }

  method EncodeClientFrame(e: Envelope) returns (frame: Option<seq<byte>>)
    ensures frame == ClientFrame(e)
  {
    hide Compact, HeaderBytes, CompactHeader, CompactBody;
    var w, ok := EncodeCompact(e);
    frame := if ok then Some(w.buf) else None;
  }

  method EncodeRelayFrame(e: Envelope) returns (frame: Option<seq<byte>>)
    ensures frame == if Relayable(e) then Some(RelayFrame(e)) else None
  {
    hide Compact, CompactHeader, CompactBody, StringBytes, OptionalStringBytes, LittleEndian;
    var w, ok := EncodeCompact(e);
    if !ok {
      return None;
    }
    var metadata := new Writer();
    metadata.String(e.messageId);
    metadata.String(e.sessionId);
    metadata.String(e.channel);
    metadata.OptionalString(e.actorId);
    metadata.OptionalString(e.origin);
    metadata.U64(NonNegative(e.sentAt));
    assert metadata.buf == MetadataBytes(e);
    if |metadata.buf| > MAX_UINT16 {
      return None;
    }
    ghost var header := HeaderBytes(CompactHeader(e));
    w.OrFlag(FLAG_RELAY_METADATA);
    assert header[3 := SetFlag(header[3], FLAG_RELAY_METADATA)] == HeaderBytes(RelayHeader(e));
    assert w.buf == HeaderBytes(RelayHeader(e)) + CompactBody(e);
    w.buf := w.buf + metadata.buf;
    w.buf := w.buf + LittleEndian(|metadata.buf|, 2);
    frame := Some(w.buf);
  }

  method EncodeRelayAggregate(envelopes: seq<Envelope>) returns (frame: Option<seq<byte>>)
    ensures frame == if Aggregable(envelopes) then Some(AggregateFrame(envelopes)) else None
  {
    hide FitsAggregate, RelayFrame, LittleEndian, HeaderBytes, ChildrenBytes;
    if |envelopes| < 2 || |envelopes| > MAX_UINT16 {
      return None;
    }
    var children: seq<seq<byte>> := [];
    for i := 0 to |envelopes|
      invariant |children| == i
      invariant forall j | 0 <= j < i :: FitsAggregate(envelopes[j])
      invariant forall j | 0 <= j < i :: Relayable(envelopes[j]) && children[j] == RelayFrame(envelopes[j])
    {
      var child := EncodeRelayFrame(envelopes[i]);
      AggregateGuard(envelopes[i]);
      if child.None? || |child.value| > MAX_UINT16 {
        return None;
      }
      children := children + [child.value];
    }
    var w := new Writer();
    w.buf := HeaderBytes(Header(CODE_AGGREGATE, 0, 0));
    w.buf := w.buf + LittleEndian(|children|, 2);
    WriteChildren(w, children, envelopes);
    frame := Some(w.buf);
  }

  lemma AggregateGuard(e: Envelope)
    ensures FitsAggregate(e) == (Relayable(e) && |RelayFrame(e)| <= MAX_UINT16)
  {
  }

  method WriteChildren(w: Writer, children: seq<seq<byte>>, ghost envelopes: seq<Envelope>)
    requires |children| == |envelopes|
    requires forall i | 0 <= i < |envelopes| :: Relayable(envelopes[i]) && children[i] == RelayFrame(envelopes[i])
    modifies w
    ensures w.buf == old(w.buf) + ChildrenBytes(envelopes)
  {
    hide Relayable, RelayFrame, LittleEndian;
    for i := 0 to |children|
      invariant w.buf + ChildrenBytes(envelopes[i..]) == old(w.buf) + ChildrenBytes(envelopes)
    {
      ghost var before, whole := w.buf, ChildrenBytes(envelopes[i..]);
      assert envelopes[i..][1..] == envelopes[i + 1..];
      w.buf := w.buf + LittleEndian(|children[i]|, 2);
      w.buf := w.buf + children[i];
      assert w.buf + ChildrenBytes(envelopes[i + 1..]) == before + whole;
    }
    assert envelopes[|children|..] == [];
  }

  method DecodeClientFrame(data: seq<byte>) returns (e: Option<Envelope>)
    ensures e == DecodeClient(data)
  {
    hide ParseInk, ParsePointer, ParseTransform, ReadHeader;
    var h := ReadHeader(data);
    if h.None? || HasFlag(h.value.flags, FLAG_RELAY_METADATA) {
      return None;
    }
    var r := new Reader(data[HEADER_SIZE..]);
    var code, flags := h.value.code, h.value.flags;
    var payload: Payload;
    if code == CODE_INK {
      if flags >= 4 {
        return None;
      }
      var ink := DecodeInk(r, flags);
      if ink.None? {
        return None;
      }
      payload := InkData(ink.value);
    } else if code == CODE_CURSOR || code == CODE_LASER {
      if flags != 0 {
        return None;
      }
      var pointer := DecodePointer(r);
      if pointer.None? {
        return None;
      }
      payload := PointerData(pointer.value);
    } else if code == CODE_TRANSFORM {
      if flags != 0 {
        return None;
      }
      var transform := DecodeTransform(r);
      if transform.None? {
        return None;
      }
      payload := TransformData(transform.value);
    } else {
      return None;
    }
    var left := r.Remaining();
    if left != 0 {
      return None;
    }
    e := Some(DecodedEnvelope(code, h.value.seqNo, payload));
  }

  method DecodeRelayMetadata(data: seq<byte>) returns (metadata: Option<seq<RelayMetadata>>)
    ensures metadata == DecodeMetadata(data)
    decreases |data|, 1
  {
    hide ReadHeader, DecodeSingle, DecodeChildren, ReadUint16;
    var h := ReadHeader(data);
    if h.None? {
      return None;
    }
    if h.value.code == CODE_AGGREGATE {
      if h.value.flags != 0 || |data| < HEADER_SIZE + 2 {
        return None;
      }
      var count := ReadUint16(data[HEADER_SIZE..HEADER_SIZE + 2]);
      metadata := DecodeAggregate(data, count);
      return;
    }
    var single := DecodeSingleFrame(data, h.value);
    metadata := if single.None? then None else Some([single.value]);
  }

  lemma NoChildLeft(s: seq<byte>)
    ensures DecodeChildren(s, 0) == if s == [] then Some([]) else None
  {
  }

  lemma OneChildMore(s: seq<byte>, count: nat)
    requires count > 0
    ensures var whole := DecodeChildren(s, count);
            if |s| < 2 then whole.None?
            else
              var size := ReadUint16(s[..2]);
              if size == 0 || 2 + size > |s| then whole.None?
              else
                var child := DecodeMetadata(s[2..2 + size]);
                if child.None? || |child.value| != 1 then whole.None?
                else whole == Prepended(child.value, DecodeChildren(s[2 + size..], count - 1))
  {
    hide DecodeMetadata, ReadUint16;
  }

  method DecodeAggregate(data: seq<byte>, count: nat) returns (metadata: Option<seq<RelayMetadata>>)
    requires |data| >= HEADER_SIZE + 2
    ensures metadata == DecodeChildren(data[HEADER_SIZE + 2..], count)
    decreases |data|, 0
  {
    hide DecodeMetadata, ReadUint16, DecodeChildren;
    var offset := HEADER_SIZE + 2;
    ghost var whole := DecodeChildren(data[offset..], count);
    var children: seq<RelayMetadata> := [];
    PrependedNothing(whole);
    for index := 0 to count
      invariant HEADER_SIZE + 2 <= offset <= |data|
      invariant whole == Prepended(children, DecodeChildren(data[offset..], count - index))
    {
      ghost var rest := data[offset..];
      OneChildMore(rest, count - index);
      if offset + 2 > |data| {
        return None;
      }
      assert rest[..2] == data[offset..offset + 2];
      var size := ReadUint16(data[offset..offset + 2]);
      offset := offset + 2;
      if size == 0 || offset + size > |data| {
        return None;
      }
      assert rest[2..2 + size] == data[offset..offset + size];
      assert rest[2 + size..] == data[offset + size..];
      var child := DecodeRelayMetadata(data[offset..offset + size]);
      if child.None? || |child.value| != 1 {
        return None;
      }
      PrependedTwice(children, child.value, DecodeChildren(data[offset + size..], count - index - 1));
      children := children + [child.value[0]];
      offset := offset + size;
    }
    NoChildLeft(data[offset..]);
    if offset != |data| {
      return None;
    }
    assert children + [] == children;
    metadata := Some(children);
  }

  function Prepended<T>(head: seq<T>, tail: Option<seq<T>>): Option<seq<T>> {
    if tail.None? then None else Some(head + tail.value)
  }

  lemma PrependedNothing<T>(tail: Option<seq<T>>)
    ensures Prepended([], tail) == tail
  {
    if tail.Some? {
      assert [] + tail.value == tail.value;
    }
  }

  lemma PrependedTwice<T>(a: seq<T>, b: seq<T>, tail: Option<seq<T>>)
    requires |b| == 1
    ensures Prepended(a, Prepended(b, tail)) == Prepended(a + [b[0]], tail)
  {
    if tail.Some? {
      assert a + (b + tail.value) == (a + [b[0]]) + tail.value;
    }
  }

  method DecodeSingleFrame(data: seq<byte>, h: Header) returns (m: Option<RelayMetadata>)
    ensures m == DecodeSingle(data, h)
  {
    hide ReadUint16, HasFlag, ParseMetadata;
    if !HasFlag(h.flags, FLAG_RELAY_METADATA) || |data| < HEADER_SIZE + 2 {
      return None;
    }
    var length := ReadUint16(data[|data| - 2..]);
    var start := |data| - 2 - length;
    if start < HEADER_SIZE {
      return None;
    }
    m := DecodeTrailer(data[start..|data| - 2], h.seqNo);
  }

  method DecodeTrailer(trailer: seq<byte>, seqNo: uint32) returns (m: Option<RelayMetadata>)
    ensures m == ParseMetadata(trailer, seqNo)
  {
    hide ParseMetadata;
    var r := new Reader(trailer);
    m := DecodeStrings(r, seqNo);
  }

  /** The three strings nobody asks for, and what follows them. */
  method DecodeStrings(r: Reader, seqNo: uint32) returns (m: Option<RelayMetadata>)
    requires r.Valid()
    modifies r
    ensures m == ParseMetadata(old(r.Rest()), seqNo)
  {
    hide ParseString, ParseStamp;
    var messageId := r.String();
    if messageId.None? {
      return None;
    }
    var sessionId := r.String();
    if sessionId.None? {
      return None;
    }
    var channel := r.String();
    if channel.None? {
      return None;
    }
    m := DecodeStamp(r, seqNo);
  }

  method DecodeStamp(r: Reader, seqNo: uint32) returns (m: Option<RelayMetadata>)
    requires r.Valid()
    modifies r
    ensures m == ParseStamp(old(r.Rest()), seqNo)
  {
    hide ParseOptionalString, WrapInt64, ReadUint64;
    var actorId := DecodeOptionalString(r);
    if actorId.None? {
      return None;
    }
    var origin := DecodeOptionalString(r);
    if origin.None? {
      return None;
    }
    ghost var rest := r.Rest();
    var sentAt := r.U64();
    if sentAt.None? {
      return None;
    }
    var left := r.Remaining();
    if left != 0 {
      return None;
    }
    assert rest[..8] == rest;
    m := Some(RelayMetadata(seqNo, actorId.value, origin.value, WrapInt64(sentAt.value)));
  }

  method DecodeOptionalString(r: Reader) returns (result: Option<Text>)
    requires r.Valid()
    modifies r
    ensures r.Reads(ParseOptionalString(old(r.Rest())), result)
  {
    hide ParseString;
    var present := r.U8();
    if present.None? || present.value > 1 {
      return None;
    }
    if present.value == 0 {
      return Some([]);
    }
    result := r.String();
  }
}
