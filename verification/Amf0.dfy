/**
 AMF0 values and their encoding and decoding as pure functions (librtmp/amf.c), after the
 AMF 0 specification, sections 2.2 to 2.5, 2.7, 2.10, 2.11 and 2.14.
 */
module Amf0 {
  import opened Wrappers
  import opened Bytes

  /** A number is its eight big-endian bytes; what they mean as a double plays no part. */
  type Double = s: seq<byte> | |s| == 8 witness [0, 0, 0, 0, 0, 0, 0, 0]

  datatype Value =
    | Number(bits: Double)
    | Boolean(b: bool)
    | Str(s: seq<byte>)
    | Object(props: seq<Prop>)
    | Null
    | Date(time: Double, utcOffset: nat)

  /** A property; an empty name stands for none. */
  datatype Prop = Prop(name: seq<byte>, value: Value)

  // Type markers.
  const NUMBER: byte := 0
  const BOOLEAN: byte := 1
  const STRING: byte := 2
  const OBJECT: byte := 3
  const NULL: byte := 5
  const UNDEFINED: byte := 6
  const ECMA_ARRAY: byte := 8
  const OBJECT_END: byte := 9
  const DATE: byte := 11
  const LONG_STRING: byte := 12
  const UNSUPPORTED: byte := 13

  const END_MARK: seq<byte> := [0, 0, 9]

  // ----- encoding with unlimited room -----

  function FullString(s: seq<byte>): seq<byte> {
    if |s| < 0x1_0000 then [STRING] + EncodeInt16(|s|) + s else [LONG_STRING] + EncodeInt32(|s|) + s
  }

  /** Name length and name; nulls and nameless properties have neither. */
  function NameBytes(p: Prop): seq<byte> {
    if p.value.Null? || p.name == [] then [] else [|p.name| / 0x100 % 0x100, |p.name| % 0x100] + p.name
  }

  function FullValue(v: Value): (b: seq<byte>)
    requires Encodable(v)
    ensures |b| >= 1 && (v.Null? || |b| >= 2)
    decreases v, 0
  {
    match v
    case Number(bits) => [NUMBER] + bits
    case Boolean(b) => [BOOLEAN, if b then 1 else 0]
    case Str(s) => FullString(s)
    case Object(props) => [OBJECT] + FullProps(props) + END_MARK
    case Null => [NULL]
    case Date(_, _) => assert false; [NULL, NULL]
  }

  function FullProp(p: Prop): seq<byte>
    requires Encodable(p.value)
    decreases p.value, 1
  {
    NameBytes(p) + FullValue(p.value)
  }

  function FullProps(props: seq<Prop>): seq<byte>
    requires AllEncodable(props)
    decreases props
  {
    if props == [] then [] else FullProp(props[0]) + FullProps(props[1..])
  }

  /** AMFProp_Encode has no case for dates. */
  predicate Encodable(v: Value)
    decreases v, 0
  {
    !v.Date? && (v.Object? ==> AllEncodable(v.props))
  }

  predicate AllEncodable(props: seq<Prop>)
    decreases props
  {
    props == [] || (Encodable(props[0].value) && AllEncodable(props[1..]))
  }

  // ----- encoding into `room` bytes -----

  function EncodeString(s: seq<byte>, room: int): Option<seq<byte>> {
    if (|s| < 0x1_0000 && 3 + |s| > room) || 5 + |s| > room then None else Some(FullString(s))
  }

  /** AMFProp_Encode: None when the property does not fit or cannot be encoded. */
  function EncodeProp(p: Prop, room: int): (r: Option<seq<byte>>)
    ensures r.Some? ==> |r.value| <= room
    decreases p.value, 1
  {
    if !p.value.Null? && |p.name| + 3 >= room then None
    else
      var body :- EncodeValue(p.value, room - |NameBytes(p)|);
      Some(NameBytes(p) + body)
  }

  function EncodeValue(v: Value, room: int): (r: Option<seq<byte>>)
    ensures r.Some? ==> |r.value| <= room
    decreases v, 0
  {
    match v
    case Number(bits) => if 9 > room then None else Some([NUMBER] + bits)
    case Boolean(b) => if 2 > room then None else Some([BOOLEAN, if b then 1 else 0])
    case Str(s) => EncodeString(s, room)
    case Object(props) =>
      if 4 >= room then None
      else
        var body := EncodeProps(props, room - 1);
        if 1 + |body| + 3 >= room then None else Some([OBJECT] + body + END_MARK)
    case Null => if 1 >= room then None else Some([NULL])
    case Date(_, _) => None
  }

  /** The property loop of AMF_Encode stops at the first property that cannot be written. */
  function EncodeProps(props: seq<Prop>, room: int): (b: seq<byte>)
    requires room >= 0
    ensures |b| <= room
    decreases props
  {
    if props == [] then []
    else
      match EncodeProp(props[0], room)
      case None => []
      case Some(first) => first + EncodeProps(props[1..], room - |first|)
  }

  /** AMF_Encode. */
  function EncodeObject(props: seq<Prop>, room: int): (r: Option<seq<byte>>)
    ensures r.Some? ==> |r.value| < room
  {
    EncodeValue(Object(props), room)
  }

  // ----- decoding -----

  datatype DecodedProp = DecodedProp(prop: Prop, size: nat)
  datatype DecodedProps = DecodedProps(props: seq<Prop>, size: nat)
  datatype DecodedValue = DecodedValue(value: Value, size: nat)

  function Drop(b: seq<byte>, n: nat): (r: seq<byte>)
    ensures |r| == if n <= |b| then |b| - n else 0
  {
    if n <= |b| then b[n..] else []
  }

  /**
   The type marker and what follows it. An array marker is followed by a count that is skipped
   without looking whether it is there.
   */
  function DecodeValue(b: seq<byte>): (r: Option<DecodedValue>)
    ensures r.Some? ==> 1 <= r.value.size <= |b| + 4
    decreases |b|, 0
  {
    if b == [] then None
    else
      var t, d := b[0], b[1..];
      if t == NUMBER then
        if |d| < 8 then None else Some(DecodedValue(Number(d[..8]), 9))
      else if t == BOOLEAN then
        if |d| < 1 then None else Some(DecodedValue(Boolean(d[0] != 0), 2))
      else if t == STRING then
        if |d| < 2 || |d| < DecodeInt16(d) + 2 then None
        else Some(DecodedValue(Str(d[2..2 + DecodeInt16(d)]), 3 + DecodeInt16(d)))
      else if t == OBJECT then
        var o :- DecodeProps(d, true, false);
        Some(DecodedValue(Object(o.props), 1 + o.size))
      else if t == NULL || t == UNDEFINED || t == UNSUPPORTED then
        Some(DecodedValue(Null, 1))
      else if t == ECMA_ARRAY then
        var o :- DecodeProps(Drop(d, 4), true, false);
        Some(DecodedValue(Object(o.props), 5 + o.size))
      else if t == DATE then
        if |d| < 10 then None else Some(DecodedValue(Date(d[..8], DecodeInt16(d[8..])), 11))
      else if t == LONG_STRING then
        if |d| < 4 || |d| < DecodeInt32(d) + 4 then None
        else Some(DecodedValue(Str(d[4..4 + DecodeInt32(d)]), 5 + DecodeInt32(d)))
      else None
  }

  /** AMFProp_Decode. */
  function DecodeProp(b: seq<byte>, named: bool): (r: Option<DecodedProp>)
    ensures r.Some? ==> 1 <= r.value.size <= |b| + 4
    decreases |b|, 1
  {
    if b == [] || (named && |b| < 4) then None
    else if named then
      var n := DecodeInt16(b);
      if n > |b| - 2 then None
      else
        var v :- DecodeValue(b[2 + n..]);
        Some(DecodedProp(Prop(b[2..2 + n], v.value), 2 + n + v.size))
    else
      var v :- DecodeValue(b);
      Some(DecodedProp(Prop([], v.value), v.size))
  }

  /** What a loop that has already taken `props` from `size` bytes makes of the result for the rest. */
  function Continue(props: seq<Prop>, size: nat, rest: Option<DecodedProps>): Option<DecodedProps> {
    if rest.None? then None else Some(DecodedProps(props + rest.value.props, size + rest.value.size))
  }

  /**
   The loop of AMF_Decode. After a property that cannot be decoded it looks for the end mark,
   then tries again one byte further on, as long as `failed` holds.
   */
  function DecodeProps(b: seq<byte>, named: bool, failed: bool): (r: Option<DecodedProps>)
    ensures r.Some? ==> r.value.size <= |b| + 4
    decreases |b|, if failed then 2 else 3
  {
    if b == [] then (if failed then None else Some(DecodedProps([], 0)))
    else if |b| >= 3 && DecodeInt24(b) == OBJECT_END as int then Some(DecodedProps([], 3))
    else
      var skip := if failed then 1 else 0;
      match DecodeProp(b[skip..], named)
      case None => Continue([], skip, DecodeProps(b[skip..], named, true))
      case Some(d) => Continue([d.prop], skip + d.size, DecodeProps(Drop(b[skip..], d.size), named, false))
  }
}
