/** Relayed frames: the stamped trailer, aggregates, and what reading them back gives. */
module Relay {
  import opened Wire
  import opened Wrappers
  import opened Preview

  function NonNegative(t: int64): int64 {
    if t < 0 then 0 else t
  }

  function MetadataBytes(e: Envelope): seq<byte> {
    StringBytes(e.messageId) + StringBytes(e.sessionId) + StringBytes(e.channel)
    + OptionalStringBytes(e.actorId) + OptionalStringBytes(e.origin)
    + LittleEndian(NonNegative(e.sentAt), 8)
  }

  /** The envelopes `EncodeRelayFrame` turns into a frame; the others stay JSON. */
  predicate Relayable(e: Envelope) {
    Compact(e) && |MetadataBytes(e)| <= MAX_UINT16
  }

  function RelayHeader(e: Envelope): Header
    requires Compact(e)
  {
    var h := CompactHeader(e);
    h.(flags := SetFlag(h.flags, FLAG_RELAY_METADATA))
  }

  function RelayFrame(e: Envelope): (r: seq<byte>)
    requires Relayable(e)
  {
    HeaderBytes(RelayHeader(e)) + CompactBody(e) + MetadataBytes(e) + LittleEndian(|MetadataBytes(e)|, 2)
  }

  // --------------------------------------------------------------- reading back

  datatype RelayMetadata = RelayMetadata(sequence: uint64, actorId: Text, origin: Text, sentAt: int64)

  /** What a reader of an envelope's trailer should learn. */
  function MetadataOf(e: Envelope): RelayMetadata
    requires Compact(e)
  {
    RelayMetadata(e.seqNo.GetOr(0), e.actorId.GetOr([]), e.origin.GetOr([]), if e.sentAt < 0 then 0 else e.sentAt)
  }

  function ParseMetadata(s: seq<byte>, seqNo: uint32): (m: Option<RelayMetadata>)
    ensures m.Some? ==> |s| >= 13
  {
    var messageId := ParseString(s);
    if messageId.Malformed? then None else
    var sessionId := ParseString(messageId.rest);
    if sessionId.Malformed? then None else
    var channel := ParseString(sessionId.rest);
    if channel.Malformed? then None else ParseStamp(channel.rest, seqNo)
  }

  function ParseStamp(s: seq<byte>, seqNo: uint32): (m: Option<RelayMetadata>)
    ensures m.Some? ==> |s| >= 10
  {
    var actor := ParseOptionalString(s);
    if actor.Malformed? then None else
    var origin := ParseOptionalString(actor.rest);
    if origin.Malformed? || |origin.rest| != 8 then None
    else Some(RelayMetadata(seqNo, actor.value, origin.value, WrapInt64(ReadUint64(origin.rest))))
  }

  /** Where the trailer of a single relayed frame begins, when its footer makes sense. */
  function TrailerStart(data: seq<byte>): (start: Option<nat>)
    ensures start.Some? ==> HEADER_SIZE <= start.value <= |data| - 2
  {
    if |data| < HEADER_SIZE + 2 then None
    else
      var start := |data| - 2 - ReadUint16(data[|data| - 2..]);
      if start < HEADER_SIZE then None else Some(start)
  }

  function DecodeSingle(data: seq<byte>, h: Header): (m: Option<RelayMetadata>)
    ensures m.Some? ==> |data| >= 23
  {
    if !HasFlag(h.flags, FLAG_RELAY_METADATA) then None
    else
      var start := TrailerStart(data);
      if start.None? then None else ParseMetadata(data[start.value..|data| - 2], h.seqNo)
  }

  /** One relayed frame, or an aggregate whose children each hold exactly one. */
  function DecodeMetadata(data: seq<byte>): (m: Option<seq<RelayMetadata>>)
    ensures m.Some? ==> 23 * |m.value| <= |data|
    decreases |data|, 1
  {
    var h := ReadHeader(data);
    if h.None? then None
    else if h.value.code == CODE_AGGREGATE then
      if h.value.flags != 0 || |data| < HEADER_SIZE + 2 then None
      else
        var count := ReadUint16(data[HEADER_SIZE..HEADER_SIZE + 2]);
        DecodeChildren(data[HEADER_SIZE + 2..], count)
    else
      var m := DecodeSingle(data, h.value);
      if m.None? then None else Some([m.value])
  }

  /** `count` length-prefixed children that use up all the bytes. */
  function DecodeChildren(s: seq<byte>, count: nat): (m: Option<seq<RelayMetadata>>)
    ensures m.Some? ==> |m.value| == count && 23 * count <= |s|
    decreases |s|, 0
  {
    if count == 0 then
      if s == [] then Some([]) else None
    else if |s| < 2 then None
    else
      var size := ReadUint16(s[..2]);
      if size == 0 || 2 + size > |s| then None
      else
        var child := DecodeMetadata(s[2..2 + size]);
        if child.None? || |child.value| != 1 then None
        else
          var tail := DecodeChildren(s[2 + size..], count - 1);
          if tail.None? then None else Some(child.value + tail.value)
  }

  // ----------------------------------------------------------------- round trips

  lemma MetadataStringsFit(e: Envelope)
    requires |MetadataBytes(e)| <= MAX_UINT16
    ensures |e.messageId| < 0x1_0000_0000 && |e.sessionId| < 0x1_0000_0000 && |e.channel| < 0x1_0000_0000
    ensures e.actorId.Some? ==> |e.actorId.value| < 0x1_0000_0000
    ensures e.origin.Some? ==> |e.origin.value| < 0x1_0000_0000
  {
    hide StringBytes;
  }

  lemma SentAtRoundTrip(t: int64)
    ensures WrapInt64(ReadUint64(LittleEndian(NonNegative(t), 8))) == NonNegative(t)
  {
    Pow256Values();
    LittleEndianRoundTrip(NonNegative(t), 8);
  }

  lemma StampRoundTrip(e: Envelope, seqNo: uint32)
    requires |MetadataBytes(e)| <= MAX_UINT16
    ensures ParseStamp(OptionalStringBytes(e.actorId)
                       + (OptionalStringBytes(e.origin) + LittleEndian(NonNegative(e.sentAt), 8)), seqNo)
         == Some(RelayMetadata(seqNo, e.actorId.GetOr([]), e.origin.GetOr([]), NonNegative(e.sentAt)))
  {
    MetadataStringsFit(e);
    hide StringBytes, ParseString, OptionalStringBytes, ParseOptionalString, LittleEndian, ReadUint64, WrapInt64;
    hide MetadataBytes;
    var s2 := LittleEndian(NonNegative(e.sentAt), 8);
    var s1 := OptionalStringBytes(e.origin) + s2;
    OptionalStringRoundTrip(e.actorId, s1);
    OptionalStringRoundTrip(e.origin, s2);
    SentAtRoundTrip(e.sentAt);
  }

  lemma SixInARow(a: seq<byte>, b: seq<byte>, c: seq<byte>, d: seq<byte>, e: seq<byte>, f: seq<byte>)
    ensures a + b + c + d + e + f == a + (b + (c + (d + (e + f))))
  {
  }

  lemma MetadataRoundTrip(e: Envelope)
    requires Relayable(e)
    ensures ParseMetadata(MetadataBytes(e), EnvelopeSeq(e.seqNo).value) == Some(MetadataOf(e))
  {
    assert EnvelopeSeq(e.seqNo) == Some(e.seqNo.GetOr(0));
    hide StringBytes, ParseString, OptionalStringBytes, ParseStamp, LittleEndian, Compact, EnvelopeSeq;
    MetadataStringsFit(e);
    var s3 := OptionalStringBytes(e.actorId)
              + (OptionalStringBytes(e.origin) + LittleEndian(NonNegative(e.sentAt), 8));
    var s2 := StringBytes(e.channel) + s3;
    var s1 := StringBytes(e.sessionId) + s2;
    SixInARow(StringBytes(e.messageId), StringBytes(e.sessionId), StringBytes(e.channel),
              OptionalStringBytes(e.actorId), OptionalStringBytes(e.origin), LittleEndian(NonNegative(e.sentAt), 8));
    StampRoundTrip(e, e.seqNo.GetOr(0));
    assert MetadataBytes(e) == StringBytes(e.messageId) + s1;
    hide MetadataBytes;
    StringRoundTrip(e.messageId, s1);
    StringRoundTrip(e.sessionId, s2);
    StringRoundTrip(e.channel, s3);
  }

  /** The trailer found from the back starts where the body ends. */
  lemma TrailerMeetsBody(e: Envelope)
    requires Relayable(e)
    ensures var frame := RelayFrame(e);
            var end := HEADER_SIZE + |CompactBody(e)|;
            && TrailerStart(frame) == Some(end)
            && frame[end..|frame| - 2] == MetadataBytes(e)
            && frame[HEADER_SIZE..end] == CompactBody(e)
            && ReadHeader(frame) == Some(RelayHeader(e))
  {
    hide HeaderBytes, ReadHeader, CompactBody, MetadataBytes, LittleEndian, ReadUint16;
    var frame := RelayFrame(e);
    var body, metadata := CompactBody(e), MetadataBytes(e);
    var footer := LittleEndian(|metadata|, 2);
    FixedWidthRoundTrip();
    assert frame[|frame| - 2..] == footer;
    assert frame == HeaderBytes(RelayHeader(e)) + (body + metadata + footer);
    HeaderRoundTrip(RelayHeader(e), body + metadata + footer);
  }

  lemma RelayFlags(e: Envelope)
    requires Compact(e)
    ensures RelayHeader(e).flags == CompactHeader(e).flags + FLAG_RELAY_METADATA
    ensures HasFlag(RelayHeader(e).flags, FLAG_RELAY_METADATA)
    ensures RelayHeader(e).code != CODE_AGGREGATE
  {
    hide BodyFlags, BodyEncodable;
  }

  lemma SingleRoundTrip(e: Envelope)
    requires Relayable(e)
    ensures DecodeMetadata(RelayFrame(e)) == Some([MetadataOf(e)])
  {
    hide RelayFrame, MetadataBytes, ParseMetadata, TrailerStart, ReadHeader, CompactBody, Compact;
    TrailerMeetsBody(e);
    RelayFlags(e);
    MetadataRoundTrip(e);
  }

  // ------------------------------------------------------------------ relaying

  /** The client frame inside a relayed one: its trailer cut off and its relay bit cleared. */
  function WithoutTrailer(data: seq<byte>): (r: seq<byte>)
    requires TrailerStart(data).Some?
    requires HasFlag(data[3], FLAG_RELAY_METADATA)
  {
    data[..TrailerStart(data).value][3 := data[3] - FLAG_RELAY_METADATA]
  }

  /** The body as a front-to-back reader sees it, with what is left after it. */
  function BodyInFront(data: seq<byte>): Parse<Payload>
    requires TrailerStart(data).Some?
    requires HasFlag(data[3], FLAG_RELAY_METADATA)
  {
    ParseBody(data[2], data[3] - FLAG_RELAY_METADATA, data[HEADER_SIZE..])
  }

  /** Everything the relayed frame tells: the envelope, where its body ends, and the metadata. */
  predicate Tells(relayed: seq<byte>, inner: Envelope, metadata: RelayMetadata) {
    && var start := TrailerStart(relayed);
    && start.Some? && HasFlag(relayed[3], FLAG_RELAY_METADATA)
    && DecodeClient(WithoutTrailer(relayed)) == Some(inner)
    && BodyInFront(relayed) == Parsed(inner.payload, relayed[start.value..])
    && DecodeMetadata(relayed) == Some([metadata])
  }

  lemma InnerFrame(e: Envelope)
    requires Relayable(e)
    ensures TrailerStart(RelayFrame(e)).Some? && HasFlag(RelayFrame(e)[3], FLAG_RELAY_METADATA)
    ensures WithoutTrailer(RelayFrame(e)) == ClientFrame(e).value
  {
    hide CompactBody, MetadataBytes, LittleEndian, TrailerStart, BodyFlags, BodyEncodable;
    TrailerMeetsBody(e);
    RelayFlags(e);
    var frame := RelayFrame(e);
    var end := HEADER_SIZE + |CompactBody(e)|;
    assert frame[..end] == HeaderBytes(RelayHeader(e)) + CompactBody(e);
    assert HeaderBytes(RelayHeader(e))[3 := CompactHeader(e).flags] == HeaderBytes(CompactHeader(e));
  }

  /** An accepted client frame after the server has written over the fields it owns. */
  function Stamped(e: Envelope, messageId: Text, sessionId: Text, channel: Text, actorId: Option<Text>,
                   origin: Option<Text>, sentAt: int64): Envelope {
    e.(messageId := messageId, sessionId := sessionId, channel := channel, actorId := actorId,
       origin := origin, sentAt := sentAt)
  }

  /**
    Relaying preserves meaning.  Take any frame the server accepts from a browser:
    stamped with a trailer that fits, it is accepted for relay; the body seen by a
    front-to-back reader ends exactly where the back-to-front reader finds the trailer,
    is no longer than the browser's, and decodes to the same envelope with steadied
    times; and the trailer tells the sequence and the stamped identity.
   */
  lemma RelayPreservesMeaning(frame: seq<byte>, messageId: Text, sessionId: Text, channel: Text,
                              actorId: Option<Text>, origin: Option<Text>, sentAt: int64)
    requires DecodeClient(frame).Some? && IdsAreUtf8(DecodeClient(frame).value.payload)
    ensures var e := DecodeClient(frame).value;
            var stamped := Stamped(e, messageId, sessionId, channel, actorId, origin, sentAt);
            |MetadataBytes(stamped)| <= MAX_UINT16 ==>
              && Relayable(stamped)
              && TrailerStart(RelayFrame(stamped)).GetOr(0) <= |frame|
              && Tells(RelayFrame(stamped), e.(payload := SteadiedPayload(e.payload)),
                       RelayMetadata(e.seqNo.GetOr(0), actorId.GetOr([]), origin.GetOr([]),
                                     if sentAt < 0 then 0 else sentAt))
  {
    hide ParseBody, BodyBytes, BodyFlags, BodyEncodable, BodyIdsFit, ReceivedBody, SteadiedPayload;
    hide HeaderBytes, TrailerStart, WithoutTrailer, MetadataBytes, RelayFrame, DecodeMetadata, ClientFrame;
    var e := DecodeClient(frame).value;
    var stamped := Stamped(e, messageId, sessionId, channel, actorId, origin, sentAt);
    if |MetadataBytes(stamped)| <= MAX_UINT16 {
      var h := ReadHeader(frame).value;
      var code := h.code;
      BodyReencodes(code, h.flags, frame[HEADER_SIZE..]);
      assert EventCode(e.event) == Some(code);
      assert EnvelopeSeq(e.seqNo) == Some(h.seqNo);
      var relayed := RelayFrame(stamped);
      TrailerMeetsBody(stamped);
      InnerFrame(stamped);
      ClientRoundTrip(stamped);
      SingleRoundTrip(stamped);
      RelayFlags(stamped);
      var start := TrailerStart(relayed).value;
      assert relayed[HEADER_SIZE..] == CompactBody(stamped) + relayed[start..];
      BodyReadsBack(code, e.payload, relayed[start..]);
    }
  }

  // ----------------------------------------------------------------- aggregates

  function ChildBytes(child: seq<byte>): seq<byte> {
    LittleEndian(|child|, 2) + child
  }

  function ChildrenBytes(envelopes: seq<Envelope>): seq<byte>
    requires forall i | 0 <= i < |envelopes| :: Relayable(envelopes[i])
  {
    if envelopes == [] then [] else ChildBytes(RelayFrame(envelopes[0])) + ChildrenBytes(envelopes[1..])
  }

  predicate FitsAggregate(e: Envelope) {
    Relayable(e) && |RelayFrame(e)| <= MAX_UINT16
  }

  predicate Aggregable(envelopes: seq<Envelope>) {
    && 2 <= |envelopes| <= MAX_UINT16
    && forall i | 0 <= i < |envelopes| :: FitsAggregate(envelopes[i])
  }

  function AggregateFrame(envelopes: seq<Envelope>): seq<byte>
    requires Aggregable(envelopes)
  {
    assert forall i | 0 <= i < |envelopes| :: FitsAggregate(envelopes[i]) ==> Relayable(envelopes[i]);
    HeaderBytes(Header(CODE_AGGREGATE, 0, 0)) + LittleEndian(|envelopes|, 2) + ChildrenBytes(envelopes)
  }

  lemma {:induction false} ChildrenRoundTrip(envelopes: seq<Envelope>)
    requires forall i | 0 <= i < |envelopes| :: Relayable(envelopes[i])
    requires forall i | 0 <= i < |envelopes| :: |RelayFrame(envelopes[i])| <= MAX_UINT16
    ensures var m := DecodeChildren(ChildrenBytes(envelopes), |envelopes|);
            && m.Some? && |m.value| == |envelopes|
            && forall i | 0 <= i < |envelopes| :: m.value[i] == MetadataOf(envelopes[i])
  {
    hide RelayFrame, DecodeMetadata, LittleEndian, ReadUint16, MetadataOf, Relayable;
    if envelopes != [] {
      var child := RelayFrame(envelopes[0]);
      var tail := ChildrenBytes(envelopes[1..]);
      var s := ChildrenBytes(envelopes);
      RelayFrameNonEmpty(envelopes[0]);
      FixedWidthRoundTrip();
      assert s[..2] == LittleEndian(|child|, 2);
      assert s[2..2 + |child|] == child;
      assert s[2 + |child|..] == tail;
      SingleRoundTrip(envelopes[0]);
      ChildrenRoundTrip(envelopes[1..]);
    }
  }

  lemma RelayFrameNonEmpty(e: Envelope)
    requires Relayable(e)
    ensures RelayFrame(e) != []
  {
  }

  /**
    Reading an aggregate back gives each envelope's sequence, actor, origin and
    non-negative send time, in order.
   */
  lemma AggregateRoundTrip(envelopes: seq<Envelope>)
    requires Aggregable(envelopes)
    ensures var m := DecodeMetadata(AggregateFrame(envelopes));
            && m.Some? && |m.value| == |envelopes|
            && forall i | 0 <= i < |envelopes| :: m.value[i] == MetadataOf(envelopes[i])
  {
    hide HeaderBytes, ReadHeader, ChildrenBytes, DecodeChildren, LittleEndian, ReadUint16, MetadataOf, RelayFrame;
    var data := AggregateFrame(envelopes);
    var h := Header(CODE_AGGREGATE, 0, 0);
    var count, children := LittleEndian(|envelopes|, 2), ChildrenBytes(envelopes);
    assert data == HeaderBytes(h) + (count + children);
    HeaderRoundTrip(h, count + children);
    assert data[HEADER_SIZE..HEADER_SIZE + 2] == count;
    assert data[HEADER_SIZE + 2..] == children;
    FixedWidthRoundTrip();
    ChildrenRoundTrip(envelopes);
  }
}
