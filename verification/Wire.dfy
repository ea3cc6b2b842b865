/** The protobuf wire format: the low-level helpers of extensions/otel-traces/proto.go and
    a reader written from the "Base 128 Varints" and "Message Structure" sections of the
    Protocol Buffers encoding specification. */
module Wire {
  import opened ByteStrings
  import opened Options

  const TWO_63: nat := 0x8000_0000_0000_0000
  const TWO_64: nat := 0x1_0000_0000_0000_0000

  // ---------- Writing ----------

  function Varint(v: nat): Bytes {
    if v < 128 then [v as byte] else [(v % 128 + 128) as byte] + Varint(v / 128)
  }

  function LittleEndian(v: nat, n: nat): Bytes {
    if n == 0 then [] else [(v % 256) as byte] + LittleEndian(v / 256, n - 1)
  }

  /** One field of a message: varint (wire type 0), fixed64 (1) or length-delimited (2). */
  datatype Field =
    | VarintField(num: nat, value: nat)
    | Fixed64Field(num: nat, value: nat)
    | LenField(num: nat, data: Bytes)

  function WireField(f: Field): Bytes {
    match f
    case VarintField(num, value) => Varint(num * 8) + Varint(value)
    case Fixed64Field(num, value) => Varint(num * 8 + 1) + LittleEndian(value, 8)
    case LenField(num, data) => Varint(num * 8 + 2) + Varint(|data|) + data
  }

  function WireFields(fs: seq<Field>): Bytes {
    if fs == [] then [] else WireField(fs[0]) + WireFields(fs[1..])
  }

  /** appendVarint: emit the low seven bits with the continuation bit until one byte is left. */
  method AppendVarint(b: Bytes, v: nat) returns (r: Bytes)
    ensures r == b + Varint(v)
  {
    r := b;
    var rest := v;
    while rest >= 0x80
      invariant r + Varint(rest) == b + Varint(v)
      decreases rest
    {
      assert r + Varint(rest) == (r + [(rest % 128 + 128) as byte]) + Varint(rest / 128);
      r := r + [(rest % 128 + 128) as byte];
      rest := rest / 128;
    }
    r := r + [rest as byte];
  }

  function FieldTag(fieldNum: nat, wireType: nat): nat {
    fieldNum * 8 + wireType
  }

  method AppendLenDelim(b: Bytes, fieldNum: nat, data: Bytes) returns (r: Bytes)
    ensures r == b + WireField(LenField(fieldNum, data))
  {
    hide Varint;
    r := AppendVarint(b, FieldTag(fieldNum, 2));
    r := AppendVarint(r, |data|);
    r := r + data;
    Associate(b, Varint(fieldNum * 8 + 2), Varint(|data|), data);
  }

  lemma Associate(a: Bytes, b: Bytes, c: Bytes, d: Bytes)
    ensures a + b + c + d == a + (b + c + d)
  {
  }

  method AppendVarintField(b: Bytes, fieldNum: nat, v: nat) returns (r: Bytes)
    ensures r == b + WireField(VarintField(fieldNum, v))
  {
    hide Varint;
    r := AppendVarint(b, FieldTag(fieldNum, 0));
    r := AppendVarint(r, v);
    assert r == b + (Varint(fieldNum * 8) + Varint(v));
  }

  method AppendFixed64Field(b: Bytes, fieldNum: nat, v: nat) returns (r: Bytes)
    requires v < TWO_64
    ensures r == b + WireField(Fixed64Field(fieldNum, v))
  {
    r := AppendVarint(b, FieldTag(fieldNum, 1));
    var tail := [(v % 256) as byte,
                 (v / 0x100 % 256) as byte,
                 (v / 0x1_0000 % 256) as byte,
                 (v / 0x100_0000 % 256) as byte,
                 (v / 0x1_0000_0000 % 256) as byte,
                 (v / 0x100_0000_0000 % 256) as byte,
                 (v / 0x1_0000_0000_0000 % 256) as byte,
                 (v / 0x100_0000_0000_0000 % 256) as byte];
    EightBytes(v);
    hide Varint, LittleEndian;
    r := r + tail;
  }

  lemma EightBytes(v: nat)
    ensures LittleEndian(v, 8)
         == [(v % 256) as byte, (v / 0x100 % 256) as byte, (v / 0x1_0000 % 256) as byte,
             (v / 0x100_0000 % 256) as byte, (v / 0x1_0000_0000 % 256) as byte,
             (v / 0x100_0000_0000 % 256) as byte, (v / 0x1_0000_0000_0000 % 256) as byte,
             (v / 0x100_0000_0000_0000 % 256) as byte]
  {
    var v1 := v / 256;
    var v2 := v1 / 256;
    var v3 := v2 / 256;
    var v4 := v3 / 256;
    var v5 := v4 / 256;
    var v6 := v5 / 256;
    var v7 := v6 / 256;
    assert v2 == v / 0x1_0000 && v3 == v / 0x100_0000 && v4 == v / 0x1_0000_0000;
    assert v5 == v / 0x100_0000_0000 && v6 == v / 0x1_0000_0000_0000 && v7 == v / 0x100_0000_0000_0000;
    assert LittleEndian(v7, 1) == [(v7 % 256) as byte];
    assert LittleEndian(v6, 2) == [(v6 % 256) as byte] + LittleEndian(v7, 1);
    assert LittleEndian(v5, 3) == [(v5 % 256) as byte] + LittleEndian(v6, 2);
    assert LittleEndian(v4, 4) == [(v4 % 256) as byte] + LittleEndian(v5, 3);
    assert LittleEndian(v3, 5) == [(v3 % 256) as byte] + LittleEndian(v4, 4);
    assert LittleEndian(v2, 6) == [(v2 % 256) as byte] + LittleEndian(v3, 5);
    assert LittleEndian(v1, 7) == [(v1 % 256) as byte] + LittleEndian(v2, 6);
  }

  /** The worked examples of the encoding specification: 300 as a varint, field 1 with value
      150, field 2 with the text "testing". */
  lemma {:induction false} SpecificationExamples()
    ensures Varint(300) == [0xAC, 0x02]
    ensures WireField(VarintField(1, 150)) == [0x08, 0x96, 0x01]
    ensures WireField(LenField(2, [0x74, 0x65, 0x73, 0x74, 0x69, 0x6E, 0x67]))
         == [0x12, 0x07, 0x74, 0x65, 0x73, 0x74, 0x69, 0x6E, 0x67]
  {
    SmallVarints(300);
    SmallVarints(150);
    SmallVarints(8);
    SmallVarints(18);
    SmallVarints(7);
    hide Varint;
  }

  lemma {:induction false} SmallVarints(v: nat)
    requires v < 0x4000
    ensures Varint(v) == if v < 128 then [v as byte] else [(v % 128 + 128) as byte, (v / 128) as byte]
  {
    if v >= 128 {
      assert Varint(v / 128) == [(v / 128) as byte];
    }
  }

  // ---------- Reading ----------

  /** At most `limit` bytes: low seven bits first, the top bit says that more follow. */
  function ReadBase128(b: Bytes, limit: nat): (r: Option<(nat, Bytes)>)
    ensures r.Some? ==> |r.value.1| < |b|
  {
    if b == [] || limit == 0 then None
    else if b[0] < 128 then Some((b[0] as nat, b[1..]))
    else match ReadBase128(b[1..], limit - 1)
      case None => None
      case Some((high, rest)) => Some((b[0] as nat - 128 + 128 * high, rest))
  }

  /** A varint: at most ten bytes, of which the low 64 bits are kept. */
  function ReadVarint(b: Bytes): (r: Option<(nat, Bytes)>)
    ensures r.Some? ==> |r.value.1| < |b|
  {
    match ReadBase128(b, 10)
    case None => None
    case Some((v, rest)) => Some((v % TWO_64, rest))
  }

  function ReadLittleEndian(b: Bytes): nat {
    if b == [] then 0 else b[0] as nat + 256 * ReadLittleEndian(b[1..])
  }

  /** One tag and its payload.  Groups and fixed32 do not occur in this format. */
  function ReadField(b: Bytes): (r: Option<(Field, Bytes)>)
    ensures r.Some? ==> |r.value.1| < |b|
  {
    match ReadVarint(b)
    case None => None
    case Some((tag, rest)) =>
      if tag / 8 == 0 then None
      else if tag % 8 == 0 then
        match ReadVarint(rest) {
          case None => None
          case Some((v, tail)) => Some((VarintField(tag / 8, v), tail))
        }
      else if tag % 8 == 1 then
        if |rest| < 8 then None else Some((Fixed64Field(tag / 8, ReadLittleEndian(rest[..8])), rest[8..]))
      else if tag % 8 == 2 then
        match ReadVarint(rest) {
          case None => None
          case Some((n, tail)) => if |tail| < n then None else Some((LenField(tag / 8, tail[..n]), tail[n..]))
        }
      else None
  }

  function ReadFields(b: Bytes): Option<seq<Field>>
    decreases |b|
  {
    if b == [] then Some([])
    else match ReadField(b)
      case None => None
      case Some((f, rest)) =>
        match ReadFields(rest)
        case None => None
        case Some(fs) => Some([f] + fs)
  }

  // ---------- Reading inverts writing ----------

  function Pow128(n: nat): nat {
    if n == 0 then 1 else 128 * Pow128(n - 1)
  }

  lemma {:induction false} ReadsBackBase128(v: nat, limit: nat, rest: Bytes)
    requires 1 <= limit && v < Pow128(limit)
    ensures ReadBase128(Varint(v) + rest, limit) == Some((v, rest))
    ensures |Varint(v)| <= limit
    decreases limit
  {
    if v < 128 {
      assert (Varint(v) + rest)[1..] == rest;
    } else {
      assert Pow128(1) == 128 * Pow128(0);
      var high, first := v / 128, (v % 128 + 128) as byte;
      ReadsBackBase128(high, limit - 1, rest);
      assert Varint(v) == [first] + Varint(high) && v == first as nat - 128 + 128 * high;
      hide Varint, Pow128;
      var all := [first] + Varint(high) + rest;
      assert all[0] == first && all[1..] == Varint(high) + rest;
    }
  }

  lemma TenGroupsCover64Bits()
    ensures TWO_64 <= Pow128(10)
  {
    assert Pow128(2) == 128 * 128;
    assert Pow128(4) == 128 * 128 * Pow128(2);
    assert Pow128(6) == 128 * 128 * Pow128(4);
    assert Pow128(8) == 128 * 128 * Pow128(6);
    assert Pow128(10) == 128 * 128 * Pow128(8);
  }

  /** A 64-bit varint takes at most ten bytes and ends by itself, whatever follows it. */
  lemma {:induction false} VarintIsSelfDelimiting(v: nat, rest: Bytes)
    requires v < TWO_64
    ensures ReadVarint(Varint(v) + rest) == Some((v, rest))
    ensures 1 <= |Varint(v)| <= 10
  {
    TenGroupsCover64Bits();
    ReadsBackBase128(v, 10, rest);
  }

  lemma {:induction false} ReadsBackLittleEndian(v: nat, n: nat)
    ensures |LittleEndian(v, n)| == n
    ensures v < Pow256(n) ==> ReadLittleEndian(LittleEndian(v, n)) == v
  {
    if n == 0 {
    } else {
      ReadsBackLittleEndian(v / 256, n - 1);
      assert LittleEndian(v, n)[1..] == LittleEndian(v / 256, n - 1);
    }
  }

  function Pow256(n: nat): nat {
    if n == 0 then 1 else 256 * Pow256(n - 1)
  }

  lemma EightBytesHold64Bits()
    ensures Pow256(8) == TWO_64
  {
    assert Pow256(2) == 256 * 256;
    assert Pow256(4) == 256 * 256 * Pow256(2);
    assert Pow256(6) == 256 * 256 * Pow256(4);
  }

  /** Field numbers of the specification, 64-bit values, lengths of a Go slice. */
  predicate WellFormed(f: Field) {
    && 1 <= f.num < 0x2000_0000
    && match f
       case VarintField(_, v) => v < TWO_64
       case Fixed64Field(_, v) => v < TWO_64
       case LenField(_, data) => |data| < TWO_63
  }

  lemma FieldReadsBack(f: Field, rest: Bytes)
    requires WellFormed(f)
    ensures ReadField(WireField(f) + rest) == Some((f, rest))
  {
    hide Varint, ReadVarint, LittleEndian, ReadLittleEndian;
    match f
    case VarintField(num, v) =>
      assert WireField(f) + rest == Varint(num * 8) + (Varint(v) + rest);
      VarintIsSelfDelimiting(num * 8, Varint(v) + rest);
      VarintIsSelfDelimiting(v, rest);
    case Fixed64Field(num, v) =>
      assert WireField(f) + rest == Varint(num * 8 + 1) + (LittleEndian(v, 8) + rest);
      VarintIsSelfDelimiting(num * 8 + 1, LittleEndian(v, 8) + rest);
      EightBytesHold64Bits();
      ReadsBackLittleEndian(v, 8);
      assert (LittleEndian(v, 8) + rest)[..8] == LittleEndian(v, 8);
    case LenField(num, data) =>
      assert WireField(f) + rest == Varint(num * 8 + 2) + (Varint(|data|) + (data + rest));
      VarintIsSelfDelimiting(num * 8 + 2, Varint(|data|) + (data + rest));
      VarintIsSelfDelimiting(|data|, data + rest);
  }

  /** A message made of well-formed fields is read back field by field, in order. */
  lemma {:induction false} FieldsReadBack(fs: seq<Field>)
    requires forall f :: f in fs ==> WellFormed(f)
    ensures ReadFields(WireFields(fs)) == Some(fs)
  {
    if fs == [] {
    } else {
      FieldsReadBack(fs[1..]);
      FieldReadsBack(fs[0], WireFields(fs[1..]));
      assert WireFields(fs) != [] by {
        assert ReadField(WireFields(fs)).Some?;
      }
      assert fs == [fs[0]] + fs[1..];
    }
  }

  lemma {:induction false} WireFieldsOfConcat(a: seq<Field>, b: seq<Field>)
    ensures WireFields(a + b) == WireFields(a) + WireFields(b)
  {
    hide WireField;
    if a == [] {
      assert a + b == b;
    } else {
      WireFieldsOfConcat(a[1..], b);
      assert (a + b)[1..] == a[1..] + b && (a + b)[0] == a[0];
      var x, y, z := WireField(a[0]), WireFields(a[1..]), WireFields(b);
      assert x + (y + z) == x + y + z;
    }
  }

  /** Appending one more field to an encoded message. */
  lemma WireFieldsSnoc(fs: seq<Field>, f: Field)
    ensures WireFields(fs + [f]) == WireFields(fs) + WireField(f)
  {
    WireFieldsOfConcat(fs, [f]);
    assert WireFields([f]) == WireField(f) + WireFields([]);
  }

  /** A payload is shorter than the message that carries it. */
  lemma {:induction false} PayloadFits(fs: seq<Field>, f: Field)
    requires f in fs && f.LenField?
    ensures |f.data| < |WireFields(fs)|
  {
    if f == fs[0] {
      assert |Varint(f.num * 8 + 2)| >= 1;
    } else {
      PayloadFits(fs[1..], f);
    }
  }
}
