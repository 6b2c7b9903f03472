/**
  The byte-level layer of the preview codec: fixed-width integers, base-128
  varints, ZigZag integers and length-prefixed strings.

  The pure functions say what is written and what is read; `Writer` and `Reader`
  are the buffer and the cursor that do it, each method proved against one of
  those functions.  Bit operations are written as arithmetic: `v % 128` stands for
  the low seven bits `v & 0x7f`, `v / 128` for the shift `v >> 7`, and a sum for an
  `|` of disjoint bits.
 */
module Wire {
  import opened Wrappers

  type byte = n: int | 0 <= n < 0x100
  type uint16 = n: int | 0 <= n < 0x1_0000
  type uint32 = n: int | 0 <= n < 0x1_0000_0000
  type int32 = n: int | -0x8000_0000 <= n < 0x8000_0000
  type uint64 = n: int | 0 <= n < 0x1_0000_0000_0000_0000
  type int64 = n: int | -0x8000_0000_0000_0000 <= n < 0x8000_0000_0000_0000

  /** A string of the program: its bytes. */
  type Text = seq<byte>

  predicate Between(n: int, low: int, high: int) {
    low <= n <= high
  }

  predicate IsTail(n: byte) {
    Between(n, 0x80, 0xbf)
  }

  /** The length of the character at the front, zero when it is malformed: section 4 of RFC 3629. */
  function CharLength(t: Text): (n: nat)
    ensures n <= |t|
  {
    if t == [] then 0
    else if t[0] < 0x80 then 1
    else if |t| < 2 then 0
    else if Between(t[0], 0xc2, 0xdf) then if IsTail(t[1]) then 2 else 0
    else if |t| < 3 || !IsTail(t[2]) then 0
    else if t[0] == 0xe0 then if Between(t[1], 0xa0, 0xbf) then 3 else 0
    else if t[0] == 0xed then if Between(t[1], 0x80, 0x9f) then 3 else 0
    else if Between(t[0], 0xe1, 0xef) then if IsTail(t[1]) then 3 else 0
    else if |t| < 4 || !IsTail(t[3]) then 0
    else if t[0] == 0xf0 then if Between(t[1], 0x90, 0xbf) then 4 else 0
    else if Between(t[0], 0xf1, 0xf3) then if IsTail(t[1]) then 4 else 0
    else if t[0] == 0xf4 then if Between(t[1], 0x80, 0x8f) then 4 else 0
    else 0
  }

  /** Text that JSON carries unchanged. */
  predicate ValidUtf8(t: Text) {
    t == [] || (CharLength(t) > 0 && ValidUtf8(t[CharLength(t)..]))
  }

  /** Go's conversions to a narrower integer keep the low bits. */
  function WrapUint32(n: int): uint32 {
    n % 0x1_0000_0000
  }

  function WrapInt32(n: int): int32 {
    (n + 0x8000_0000) % 0x1_0000_0000 - 0x8000_0000
  }

  function WrapInt64(n: int): int64 {
    (n + 0x8000_0000_0000_0000) % 0x1_0000_0000_0000_0000 - 0x8000_0000_0000_0000
  }

  /** What reading one item from the front of the remaining bytes gives. */
  datatype Parse<+T> = Malformed | Parsed(value: T, rest: seq<byte>) {
    predicate IsFailure() {
      Malformed?
    }

    function PropagateFailure<U>(): Parse<U>
      requires Malformed?
    {
      Malformed
    }

    function Extract(): (T, seq<byte>)
      requires Parsed?
    {
      (value, rest)
    }
  }

  // ---------------------------------------------------------------- fixed width

  function LittleEndian(n: nat, width: nat): (s: seq<byte>)
    ensures |s| == width
  {
    if width == 0 then [] else [n % 0x100] + LittleEndian(n / 0x100, width - 1)
  }

  function FromLittleEndian(s: seq<byte>): nat {
    if s == [] then 0 else s[0] + 0x100 * FromLittleEndian(s[1..])
  }

  function Pow256(k: nat): nat {
    if k == 0 then 1 else 0x100 * Pow256(k - 1)
  }

  lemma {:induction false} LittleEndianRoundTrip(n: nat, width: nat)
    requires n < Pow256(width)
    ensures FromLittleEndian(LittleEndian(n, width)) == n
  {
    if width > 0 {
      LittleEndianRoundTrip(n / 0x100, width - 1);
      var s := LittleEndian(n, width);
      assert s[1..] == LittleEndian(n / 0x100, width - 1);
    }
  }

  lemma {:induction false} FromLittleEndianBound(s: seq<byte>)
    ensures FromLittleEndian(s) < Pow256(|s|)
  {
    if s != [] {
      FromLittleEndianBound(s[1..]);
    }
  }

  lemma Pow256Values()
    ensures Pow256(2) == 0x1_0000
    ensures Pow256(4) == 0x1_0000_0000
    ensures Pow256(8) == 0x1_0000_0000_0000_0000
  {
    assert Pow256(4) == 0x100 * (0x100 * Pow256(2));
    assert Pow256(6) == 0x100 * (0x100 * Pow256(4));
    assert Pow256(8) == 0x100 * (0x100 * Pow256(6));
  }

  function ReadUint16(s: seq<byte>): (n: uint16)
    requires |s| == 2
  {
    FromLittleEndianBound(s);
    Pow256Values();
    FromLittleEndian(s)
  }

  function ReadUint32(s: seq<byte>): (n: uint32)
    requires |s| == 4
  {
    FromLittleEndianBound(s);
    Pow256Values();
    FromLittleEndian(s)
  }

  function ReadUint64(s: seq<byte>): (n: uint64)
    requires |s| == 8
  {
    FromLittleEndianBound(s);
    Pow256Values();
    FromLittleEndian(s)
  }

  lemma FixedWidthRoundTrip()
    ensures forall n: uint16 :: ReadUint16(LittleEndian(n, 2)) == n
    ensures forall n: uint32 :: ReadUint32(LittleEndian(n, 4)) == n
    ensures forall n: uint64 :: ReadUint64(LittleEndian(n, 8)) == n
  {
    Pow256Values();
    forall n: uint16 ensures ReadUint16(LittleEndian(n, 2)) == n {
      LittleEndianRoundTrip(n, 2);
    }
    forall n: uint32 ensures ReadUint32(LittleEndian(n, 4)) == n {
      LittleEndianRoundTrip(n, 4);
    }
    forall n: uint64 ensures ReadUint64(LittleEndian(n, 8)) == n {
      LittleEndianRoundTrip(n, 8);
    }
  }

  // --------------------------------------------------------------------- varint

  function VarintBytes(n: nat): (s: seq<byte>)
    ensures |s| >= 1
    decreases n
  {
    if n < 0x80 then [n] else [n % 0x80 + 0x80] + VarintBytes(n / 0x80)
  }

  /** One past the largest value that fits when `index` groups are already used. */
  function VarintLimit(index: nat): nat
    requires index <= 4
  {
    [0x1_0000_0000, 0x200_0000, 0x4_0000, 0x800, 0x10][index]
  }

  /** The varint that starts at group `index` of a five-byte budget. */
  function ParseVarintFrom(s: seq<byte>, index: nat): (p: Parse<nat>)
    requires index <= 5
    ensures p.Parsed? ==> index < 5 && p.value < VarintLimit(index)
    ensures p.Parsed? ==> |p.rest| < |s|
    decreases 5 - index
  {
    if index == 5 || s == [] then
      Malformed
    else if index == 4 && s[0] >= 0x10 then
      Malformed
    else if s[0] < 0x80 then
      Parsed(s[0], s[1..])
    else
      var (high, rest) :- ParseVarintFrom(s[1..], index + 1);
      Parsed(s[0] - 0x80 + 0x80 * high, rest)
  }

  function ParseVarint(s: seq<byte>): (p: Parse<uint32>)
    ensures p.Parsed? ==> |p.rest| < |s|
  {
    ParseVarintFrom(s, 0)
  }

  /** Writing a value back never takes more bytes than it was read from, however it was padded. */
  lemma {:induction false} VarintShrinksFrom(s: seq<byte>, index: nat)
    requires index <= 5
    ensures var p := ParseVarintFrom(s, index);
            p.Parsed? ==> |VarintBytes(p.value)| + |p.rest| <= |s|
    decreases 5 - index
  {
    var p := ParseVarintFrom(s, index);
    if p.Parsed? && s[0] >= 0x80 {
      VarintShrinksFrom(s[1..], index + 1);
      var high := ParseVarintFrom(s[1..], index + 1).value;
      if p.value >= 0x80 {
        assert p.value / 0x80 == high;
      }
    }
  }

  lemma VarintShrinks(s: seq<byte>)
    ensures var p := ParseVarint(s);
            p.Parsed? ==> |VarintBytes(p.value)| + |p.rest| <= |s|
  {
    VarintShrinksFrom(s, 0);
  }

  lemma {:induction false} VarintRoundTripFrom(n: nat, rest: seq<byte>, index: nat)
    requires index <= 4 && n < VarintLimit(index)
    ensures ParseVarintFrom(VarintBytes(n) + rest, index) == Parsed(n, rest)
    decreases 5 - index
  {
    var s := VarintBytes(n) + rest;
    if n < 0x80 {
      assert s[1..] == rest;
    } else {
      assert index < 4 && n / 0x80 < VarintLimit(index + 1);
      VarintRoundTripFrom(n / 0x80, rest, index + 1);
      assert s == [n % 0x80 + 0x80] + (VarintBytes(n / 0x80) + rest);
      assert s[1..] == VarintBytes(n / 0x80) + rest;
    }
  }

  lemma VarintRoundTrip(n: uint32, rest: seq<byte>)
    ensures ParseVarint(VarintBytes(n) + rest) == Parsed(n, rest)
  {
    VarintRoundTripFrom(n, rest, 0);
  }

  lemma {:induction false} VarintLengthMonotone(m: nat, n: nat)
    requires m <= n
    ensures |VarintBytes(m)| <= |VarintBytes(n)|
  {
    if m >= 0x80 {
      VarintLengthMonotone(m / 0x80, n / 0x80);
    }
  }

  // --------------------------------------------------------------------- ZigZag

  function ZigZag(n: int32): uint32 {
    if n >= 0 then 2 * n else -2 * n - 1
  }

  function UnZigZag(u: uint32): int32 {
    if u % 2 == 0 then u / 2 else -(u / 2) - 1
  }

  function SvarintBytes(n: int32): (s: seq<byte>)
    ensures |s| >= 1
  {
    VarintBytes(ZigZag(n))
  }

  function ParseSvarint(s: seq<byte>): (p: Parse<int32>)
    ensures p.Parsed? ==> |p.rest| < |s|
  {
    var (u, rest) :- ParseVarint(s);
    Parsed(UnZigZag(u), rest)
  }

  lemma SvarintShrinks(s: seq<byte>)
    ensures var p := ParseSvarint(s);
            p.Parsed? ==> |SvarintBytes(p.value)| + |p.rest| <= |s|
  {
    VarintShrinks(s);
    var u := ParseVarint(s);
    assert u.Parsed? ==> ZigZag(UnZigZag(u.value)) == u.value;
  }

  lemma SvarintRoundTrip(n: int32, rest: seq<byte>)
    ensures ParseSvarint(SvarintBytes(n) + rest) == Parsed(n, rest)
  {
    VarintRoundTrip(ZigZag(n), rest);
  }

  // -------------------------------------------------------------------- strings

  /** The length prefix is the low 32 bits of the length. */
  function StringBytes(t: Text): (s: seq<byte>)
    ensures |s| >= 1 + |t|
  {
    VarintBytes(WrapUint32(|t|)) + t
  }

  function ParseString(s: seq<byte>): (p: Parse<Text>)
    ensures p.Parsed? ==> |p.rest| + |p.value| < |s| && |p.value| < 0x1_0000_0000
  {
    var (n, rest) :- ParseVarint(s);
    if n > |rest| then Malformed else Parsed(rest[..n], rest[n..])
  }

  lemma StringShrinks(s: seq<byte>)
    ensures var p := ParseString(s);
            p.Parsed? ==> |StringBytes(p.value)| + |p.rest| <= |s|
  {
    hide ParseVarint;
    VarintShrinks(s);
  }

  lemma StringRoundTrip(t: Text, rest: seq<byte>)
    requires |t| < 0x1_0000_0000
    ensures ParseString(StringBytes(t) + rest) == Parsed(t, rest)
  {
    VarintRoundTrip(|t|, t + rest);
    assert StringBytes(t) + rest == VarintBytes(|t|) + (t + rest);
    assert (t + rest)[..|t|] == t && (t + rest)[|t|..] == rest;
  }

  function OptionalStringBytes(t: Option<Text>): seq<byte> {
    if t.None? then [0] else [1] + StringBytes(t.value)
  }

  /** An absent string reads back as the empty one. */
  function ParseOptionalString(s: seq<byte>): (p: Parse<Text>)
    ensures p.Parsed? ==> |p.rest| < |s|
  {
    if s == [] || s[0] > 1 then Malformed
    else if s[0] == 0 then Parsed([], s[1..])
    else ParseString(s[1..])
  }

  lemma OptionalStringRoundTrip(t: Option<Text>, rest: seq<byte>)
    requires t.Some? ==> |t.value| < 0x1_0000_0000
    ensures ParseOptionalString(OptionalStringBytes(t) + rest) == Parsed(t.GetOr([]), rest)
  {
    hide StringBytes, ParseString;
    var s := OptionalStringBytes(t) + rest;
    if t.None? {
      assert s[1..] == rest;
    } else {
      assert s[1..] == StringBytes(t.value) + rest;
      StringRoundTrip(t.value, rest);
    }
  }

  // -------------------------------------------------------- the buffer being built

  /** `b | flag` for a flag that is a single bit. */
  function SetFlag(b: byte, flag: byte): (r: byte)
    requires flag in {0x01, 0x02, 0x80}
  {
    if b / flag % 2 == 1 then b else b + flag
  }

  predicate HasFlag(b: byte, flag: byte)
    requires flag in {0x01, 0x02, 0x80}
  {
    b / flag % 2 == 1
  }

  class Writer {
    var buf: seq<byte>

    constructor ()
      ensures buf == []
    {
      buf := [];
    }

    method U8(value: byte)
      modifies this
      ensures buf == old(buf) + [value]
    {
      buf := buf + [value];
    }

    method U64(value: uint64)
      modifies this
      ensures buf == old(buf) + LittleEndian(value, 8)
    {
      buf := buf + LittleEndian(value, 8);
    }

    method Varint(value: uint32)
      modifies this
      ensures buf == old(buf) + VarintBytes(value)
    {
      var v: nat := value;
      while v / 0x80 != 0
        invariant buf + VarintBytes(v) == old(buf) + VarintBytes(value)
        decreases v
      {
        var before, whole := buf, VarintBytes(v);
        U8(v % 0x80 + 0x80);
        v := v / 0x80;
        assert buf + VarintBytes(v) == before + whole;
      }
      U8(v % 0x80);
    }

    method Svarint(value: int32)
      modifies this
      ensures buf == old(buf) + SvarintBytes(value)
    {
      Varint(ZigZag(value));
    }

    method String(value: Text)
      modifies this
      ensures buf == old(buf) + StringBytes(value)
    {
      Varint(WrapUint32(|value|));
      buf := buf + value;
    }

    method OptionalString(value: Option<Text>)
      modifies this
      ensures buf == old(buf) + OptionalStringBytes(value)
    {
      if value.None? {
        U8(0);
      } else {
        U8(1);
        String(value.value);
      }
    }

    method OrFlag(flag: byte)
      requires flag in {0x01, 0x02, 0x80}
      requires |buf| >= 4
      modifies this
      ensures buf == old(buf)[3 := SetFlag(old(buf[3]), flag)]
    {
      buf := buf[3 := SetFlag(buf[3], flag)];
    }
  }

  // ------------------------------------------------------------ the cursor reading

  /** `whole` is `tail` with the `value` of the groups already read put below it. */
  ghost predicate Resumes(whole: Parse<uint32>, value: int, scale: int, tail: Parse<nat>) {
    if tail.Malformed? then whole.Malformed?
    else whole.Parsed? && whole.value == value + scale * tail.value && whole.rest == tail.rest
  }

  lemma ResumesAfterGroup(whole: Parse<uint32>, value: int, scale: int, s: seq<byte>, index: nat)
    requires index < 5 && s != [] && !(index == 4 && s[0] >= 0x10)
    requires Resumes(whole, value, scale, ParseVarintFrom(s, index))
    ensures var next := value + scale * (s[0] % 0x80);
            if s[0] < 0x80 then whole == Parsed(next, s[1..])
            else Resumes(whole, next, scale * 0x80, ParseVarintFrom(s[1..], index + 1))
  {
    assert s[0] % 0x80 == if s[0] < 0x80 then s[0] else s[0] - 0x80;
    if s[0] >= 0x80 {
      var tail := ParseVarintFrom(s[1..], index + 1);
      if tail.Parsed? {
        ScaledGroup(value, scale, s[0] - 0x80, tail.value);
      }
    }
  }

  lemma VarintStops(whole: Parse<uint32>, value: int, scale: int, s: seq<byte>, index: nat)
    requires index <= 5
    requires s == [] || index == 5 || (index == 4 && s[0] >= 0x10)
    requires Resumes(whole, value, scale, ParseVarintFrom(s, index))
    ensures whole.Malformed?
  {
  }

  lemma ScaledGroup(value: int, scale: int, group: int, high: int)
    ensures (value + scale * group) + (scale * 0x80) * high == value + scale * (group + 0x80 * high)
  {
  }

  class Reader {
    const data: seq<byte>
    var offset: nat

    ghost predicate Valid()
      reads this
    {
      offset <= |data|
    }

    /** What has not been read yet. */
    ghost function Rest(): seq<byte>
      requires Valid()
      reads this
    {
      data[offset..]
    }

    constructor (bytes: seq<byte>)
      ensures Valid() && data == bytes && Rest() == bytes
    {
      data := bytes;
      offset := 0;
    }

    /** Ties the outcome of a read to what the grammar says of the bytes that were left. */
    ghost predicate Reads<T>(p: Parse<T>, result: Option<T>)
      reads this
    {
      && Valid()
      && (p.Malformed? ==> result.None?)
      && (p.Parsed? ==> result == Some(p.value) && Rest() == p.rest)
    }

    method Remaining() returns (n: nat)
      requires Valid()
      ensures n == |Rest()|
    {
      n := |data| - offset;
    }

    method U8() returns (result: Option<byte>)
      requires Valid()
      modifies this
      ensures Valid()
      ensures old(Rest()) == [] ==> result.None?
      ensures old(Rest()) != [] ==> result == Some(old(Rest())[0]) && Rest() == old(Rest())[1..]
    {
      if |data| - offset < 1 {
        return None;
      }
      result := Some(data[offset]);
      offset := offset + 1;
    }

    method U64() returns (result: Option<uint64>)
      requires Valid()
      modifies this
      ensures Valid()
      ensures |old(Rest())| < 8 ==> result.None?
      ensures |old(Rest())| >= 8 ==>
                result == Some(ReadUint64(old(Rest())[..8])) && Rest() == old(Rest())[8..]
    {
      if |data| - offset < 8 {
        return None;
      }
      assert data[offset..][..8] == data[offset..offset + 8];
      result := Some(ReadUint64(data[offset..offset + 8]));
      offset := offset + 8;
    }

    method Varint() returns (result: Option<uint32>)
      requires Valid()
      modifies this
      ensures Reads(ParseVarint(old(Rest())), result)
    {
      ghost var whole := ParseVarint(Rest());
      var value: int, scale: int := 0, 1;
      assert Resumes(whole, value, scale, ParseVarintFrom(Rest(), 0));
      hide ParseVarint, ParseVarintFrom, Resumes;
      var index := 0;
      while index < 5
        invariant Valid() && index <= 5
        invariant Resumes(whole, value, scale, ParseVarintFrom(Rest(), index))
      {
        ghost var before := Rest();
        var b := U8();
        if b.None? || (index == 4 && b.value >= 0x10) {
          VarintStops(whole, value, scale, before, index);
          return None;
        }
        ResumesAfterGroup(whole, value, scale, before, index);
        value := value + scale * (b.value % 0x80);
        if b.value < 0x80 {
          return Some(value);
        }
        scale := scale * 0x80;
        index := index + 1;
      }
      VarintStops(whole, value, scale, Rest(), index);
      result := None;
    }

    method Svarint() returns (result: Option<int32>)
      requires Valid()
      modifies this
      ensures Reads(ParseSvarint(old(Rest())), result)
    {
      var u := Varint();
      result := if u.None? then None else Some(UnZigZag(u.value));
    }

    method String() returns (result: Option<Text>)
      requires Valid()
      modifies this
      ensures Reads(ParseString(old(Rest())), result)
    {
      hide ParseVarint;
      var n := Varint();
      if n.None? || n.value > |data| - offset {
        return None;
      }
      var start := offset;
      offset := offset + n.value;
      assert data[start..][..n.value] == data[start..offset];
      assert data[start..][n.value..] == data[offset..];
      result := Some(data[start..offset]);
    }
  }
}
