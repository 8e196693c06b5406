/**
 AMF0 in bytes: what each type marker stands for when values are written and when they are read, and
 what an array is decoded to (librtmp/amf.c:158-260, 349-399, 624-766; AMF 0, sections 2.2 to 2.14).
 */
module AmfWire {
  import opened Wrappers
  import opened Bytes
  import opened Amf0
  import opened AmfRoundTrip

  function Size16(n: nat): seq<byte> {
    [n / 0x100 % 0x100, n % 0x100]
  }

  function Size32(n: nat): seq<byte> {
    [n / 0x100_0000 % 0x100, n / 0x1_0000 % 0x100, n / 0x100 % 0x100, n % 0x100]
  }

  // ----- writing -----

  lemma WrittenScalars(bits: Double, s: seq<byte>)
    ensures FullValue(Number(bits)) == [0] + bits
    ensures FullValue(Boolean(false)) == [1, 0] && FullValue(Boolean(true)) == [1, 1]
    ensures FullValue(Null) == [5]
    ensures |s| < 0x1_0000 ==> FullValue(Str(s)) == [2] + Size16(|s|) + s
    ensures 0x1_0000 <= |s| ==> FullValue(Str(s)) == [12] + Size32(|s|) + s
  {}

  /** Properties one after the other between the marker and the end mark, each behind its name. */
  lemma WrittenObject(props: seq<Prop>)
    requires AllEncodable(props)
    ensures FullValue(Object(props)) == [3] + FullProps(props) + [0, 0, 9]
    ensures props != [] ==>
      FullProps(props) == FullProp(props[0]) + FullProps(props[1..])
    ensures props == [] ==> FullProps(props) == []
  {}

  lemma WrittenProp(p: Prop)
    requires Encodable(p.value)
    ensures !p.value.Null? && 0 < |p.name| < 0x1_0000 ==> FullProp(p) == Size16(|p.name|) + p.name + FullValue(p.value)
    ensures p.value.Null? || p.name == [] ==> FullProp(p) == FullValue(p.value)
  {}

  // ----- reading -----

  /** Every marker with bytes of its own behind it. */
  lemma ReadScalars(bits: Double, b: byte, hi: byte, lo: byte, tail: seq<byte>)
    ensures DecodeValue([0] + bits + tail) == Some(DecodedValue(Number(bits), 9))
    ensures DecodeValue([1, b] + tail) == Some(DecodedValue(Boolean(b != 0), 2))
    ensures DecodeValue([11] + bits + [hi, lo] + tail) == Some(DecodedValue(Date(bits, hi as int * 0x100 + lo), 11))
  {
    assert ([0] + bits + tail)[1..] == bits + tail && (bits + tail)[..8] == bits;
    assert ([1, b] + tail)[1..] == [b] + tail;
    var d := bits + [hi, lo] + tail;
    assert ([11] + bits + [hi, lo] + tail)[1..] == d && d[..8] == bits && d[8..][0] == hi && d[8..][1] == lo;
    hide DecodeProps;
  }

  /** Null, undefined and unsupported are all a null. */
  lemma ReadEmpty(t: byte, tail: seq<byte>)
    requires t == 5 || t == 6 || t == 13
    ensures DecodeValue([t] + tail) == Some(DecodedValue(Null, 1))
  {}

  lemma ReadStrings(s: seq<byte>, tail: seq<byte>)
    ensures |s| < 0x1_0000 ==>
      DecodeValue([2] + Size16(|s|) + s + tail) == Some(DecodedValue(Str(s), 3 + |s|))
    ensures |s| < 0x8000_0000 ==>
      DecodeValue([12] + Size32(|s|) + s + tail) == Some(DecodedValue(Str(s), 5 + |s|))
  {
    hide DecodeProps, DecodeInt16, DecodeInt32;
    if |s| < 0x1_0000 {
      StringParts(2, Size16(|s|), s, tail);
      DecodeEncodeInt16(|s|, s + tail);
    }
    if |s| < 0x8000_0000 {
      StringParts(12, Size32(|s|), s, tail);
      DecodeEncodeInt32(|s|, s + tail);
    }
  }

  /** Movie clips, references, stray end marks, record sets, XML and typed objects are refused. */
  lemma ReadRefuses(t: byte, tail: seq<byte>)
    requires t == 4 || t == 7 || t == 9 || t == 14 || t == 15 || t == 16 || t > 17
    ensures DecodeValue([t] + tail) == None
  {}

  lemma ReadObject(props: seq<Prop>, tail: seq<byte>)
    requires AllPlain(props)
    ensures AllEncodable(props)
    ensures DecodeValue([3] + FullProps(props) + [0, 0, 9] + tail)
            == Some(DecodedValue(Object(props), 4 + |FullProps(props)|))
  {
    PropsRoundTrip(props, tail);
    TreeIsRead([3], FullProps(props) + [0, 0, 9] + tail);
    assert [3] + FullProps(props) + [0, 0, 9] + tail == [3] + (FullProps(props) + [0, 0, 9] + tail);
    hide *;
  }

  /** A named property is its name behind its length, then a value; a nameless one is a value. */
  lemma ReadProp(name: seq<byte>, v: seq<byte>)
    requires |name| < 0x1_0000
    ensures DecodeProp(Size16(|name|) + name + v, true)
            == if |name| + |v| < 2 || DecodeValue(v).None? then None
               else Some(DecodedProp(Prop(name, DecodeValue(v).value.value), 2 + |name| + DecodeValue(v).value.size))
    ensures DecodeProp(v, false)
            == if DecodeValue(v).None? then None
               else Some(DecodedProp(Prop([], DecodeValue(v).value.value), DecodeValue(v).value.size))
  {
    SizeRead(|name|, name + v);
    NameSlices(Size16(|name|), name, v);
    hide *;
    Named(Size16(|name|) + name + v, name, v);
    Nameless(v);
  }

  lemma SizeRead(n: nat, tail: seq<byte>)
    requires n < 0x1_0000
    ensures DecodeInt16(Size16(n) + tail) == n
  {
    hide DecodeInt16;
    assert Size16(n) == EncodeInt16(n);
    DecodeEncodeInt16(n, tail);
  }

  lemma NameSlices(size: seq<byte>, name: seq<byte>, v: seq<byte>)
    requires |size| == 2
    ensures var b := size + name + v;
      b == size + (name + v) && b[2..2 + |name|] == name && b[2 + |name|..] == v
  {}

  lemma Named(b: seq<byte>, name: seq<byte>, v: seq<byte>)
    requires |b| == 2 + |name| + |v| && DecodeInt16(b) == |name|
    requires b[2..2 + |name|] == name && b[2 + |name|..] == v
    ensures DecodeProp(b, true)
            == if |name| + |v| < 2 || DecodeValue(v).None? then None
               else Some(DecodedProp(Prop(name, DecodeValue(v).value.value), 2 + |name| + DecodeValue(v).value.size))
  {
    hide DecodeInt16, DecodeValue;
  }

  lemma Nameless(v: seq<byte>)
    ensures DecodeProp(v, false)
            == if DecodeValue(v).None? then None
               else Some(DecodedProp(Prop([], DecodeValue(v).value.value), DecodeValue(v).value.size))
  {
    assert v == [] ==> DecodeValue(v).None?;
    hide DecodeValue;
  }

  /** A name longer than the bytes that are there is refused. */
  lemma LongNameRefused(size: nat, b: seq<byte>)
    requires |b| < size < 0x1_0000
    ensures DecodeProp(Size16(size) + b, true) == None
  {
    SizeRead(size, b);
    hide *;
    TooLong(Size16(size) + b, size);
  }

  lemma TooLong(b: seq<byte>, n: nat)
    requires |b| >= 2 && DecodeInt16(b) == n > |b| - 2
    ensures DecodeProp(b, true) == None
  {
    hide DecodeInt16, DecodeValue;
  }

  /** An array has the properties that an object of the same bytes has; its count can be anything. */
  lemma ReadArray(props: seq<Prop>, count: seq<byte>, tail: seq<byte>)
    requires AllPlain(props) && |count| == 4
    ensures AllEncodable(props)
    ensures DecodeValue([8] + count + FullProps(props) + [0, 0, 9] + tail)
            == Some(DecodedValue(Object(props), 8 + |FullProps(props)|))
  {
    PropsRoundTrip(props, tail);
    TreeIsRead([8] + count, FullProps(props) + [0, 0, 9] + tail);
    assert [8] + count + FullProps(props) + [0, 0, 9] + tail == [8] + count + (FullProps(props) + [0, 0, 9] + tail);
    hide *;
  }

  /** The marker of an object, or that of an array with any count, in front of a property list. */
  lemma TreeIsRead(front: seq<byte>, body: seq<byte>)
    requires front == [3] || (|front| == 5 && front[0] == 8)
    ensures var o := DecodeProps(body, true, false);
      DecodeValue(front + body)
      == if o.None? then None else Some(DecodedValue(Object(o.value.props), |front| + o.value.size))
  {
    hide DecodeProps;
    var b := front + body;
    assert b[1..] == front[1..] + body;
    assert |front| == 5 ==> Drop(b[1..], 4) == body;
    assert |front| == 1 ==> b[1..] == body;
  }

  // ----- limited room -----

  /** Each scalar is written exactly when it fits; a string needs room as if it had the longer length field. */
  lemma RoomForScalars(bits: Double, b: bool, s: seq<byte>, room: int)
    ensures EncodeValue(Number(bits), room) == if room >= 9 then Some(FullValue(Number(bits))) else None
    ensures EncodeValue(Boolean(b), room) == if room >= 2 then Some(FullValue(Boolean(b))) else None
    ensures EncodeValue(Null, room) == if room >= 2 then Some(FullValue(Null)) else None
    ensures EncodeValue(Str(s), room) == if room >= |s| + 5 then Some(FullValue(Str(s))) else None
  {}

  /** A property also needs one byte more than its name and three: only a null is written without that check. */
  lemma RoomForProps(p: Prop, room: int)
    requires Encodable(p.value)
    ensures !p.value.Null? ==>
      (EncodeProp(p, room).Some? <==>
         room >= |p.name| + 4
         && EncodeValue(p.value, room - (if p.name == [] then 0 else 2 + |p.name|)).Some?)
    ensures p.value.Null? ==> (EncodeProp(p, room).Some? <==> room >= 2)
  {
    hide EncodeProps;
  }
}
