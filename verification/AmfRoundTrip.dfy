/**
 What AMF_Decode makes of the output of AMF_Encode: round trips, truncated output,
 and the inputs on which the code itself loses something.
 */
module AmfRoundTrip {
  import opened Wrappers
  import opened Bytes
  import opened Amf0

  /** Values that survive inside an object: no nulls and no dates, and names that fit their length field. */
  predicate Plain(v: Value)
    decreases v, 0
  {
    match v
    case Number(_) => true
    case Boolean(_) => true
    case Str(s) => |s| < 0x8000_0000
    case Object(props) => AllPlain(props)
    case Null => false
    case Date(_, _) => false
  }

  predicate AllPlain(props: seq<Prop>)
    decreases props
  {
    props == [] || (0 < |props[0].name| < 0x1_0000 && Plain(props[0].value) && AllPlain(props[1..]))
  }

  lemma {:induction false} PlainIsEncodable(v: Value)
    requires Plain(v)
    ensures Encodable(v)
    decreases v, 0
  {
    if v.Object? {
      AllPlainIsEncodable(v.props);
    }
  }

  lemma {:induction false} AllPlainIsEncodable(props: seq<Prop>)
    requires AllPlain(props)
    ensures AllEncodable(props)
    decreases props
  {
    if props != [] {
      PlainIsEncodable(props[0].value);
      AllPlainIsEncodable(props[1..]);
    }
  }

  // ----- round trip -----

  lemma StringParts(marker: byte, size: seq<byte>, s: seq<byte>, tail: seq<byte>)
    ensures var b, d := [marker] + size + s + tail, size + (s + tail);
      b[1..] == d && |d| >= |size| + |s| && d[|size|..|size| + |s|] == s
  {}

  lemma ShortStringRoundTrip(s: seq<byte>, tail: seq<byte>)
    requires |s| < 0x1_0000
    ensures DecodeValue(FullString(s) + tail) == Some(DecodedValue(Str(s), |FullString(s)|))
  {
    hide DecodeProps, EncodeInt16, DecodeInt16;
    DecodeEncodeInt16(|s|, s + tail);
    StringParts(STRING, EncodeInt16(|s|), s, tail);
  }

  lemma LongStringRoundTrip(s: seq<byte>, tail: seq<byte>)
    requires 0x1_0000 <= |s| < 0x8000_0000
    ensures DecodeValue(FullString(s) + tail) == Some(DecodedValue(Str(s), |FullString(s)|))
  {
    hide DecodeProps, EncodeInt32, DecodeInt32;
    DecodeEncodeInt32(|s|, s + tail);
    StringParts(LONG_STRING, EncodeInt32(|s|), s, tail);
  }

  lemma FixedRoundTrip(v: Value, tail: seq<byte>)
    requires v.Number? || v.Boolean?
    ensures DecodeValue(FullValue(v) + tail) == Some(DecodedValue(v, |FullValue(v)|))
  {
    hide DecodeProps, FullProps;
    var d := FullValue(v)[1..] + tail;
    assert (FullValue(v) + tail)[1..] == d;
    assert v.Number? ==> d[..8] == v.bits;
  }

  /** Decoding an encoding followed by anything gives the value back and consumes exactly the encoding. */
  lemma {:induction false} ValueRoundTrip(v: Value, tail: seq<byte>)
    requires Plain(v)
    ensures Encodable(v) && DecodeValue(FullValue(v) + tail) == Some(DecodedValue(v, |FullValue(v)|))
    decreases v, 0
  {
    hide DecodeProps, FullProps;
    PlainIsEncodable(v);
    match v
    case Number(_) => FixedRoundTrip(v, tail);
    case Boolean(_) => FixedRoundTrip(v, tail);
    case Str(s) =>
      hide FullString, DecodeValue;
      if |s| < 0x1_0000 {
        ShortStringRoundTrip(s, tail);
      } else {
        LongStringRoundTrip(s, tail);
      }
    case Object(props) =>
      PropsRoundTrip(props, tail);
      assert (FullValue(v) + tail)[1..] == FullProps(props) + END_MARK + tail;
  }

  lemma PropRoundTrip(p: Prop, tail: seq<byte>)
    requires 0 < |p.name| < 0x1_0000 && Plain(p.value) && Encodable(p.value)
    requires DecodeValue(FullValue(p.value) + tail) == Some(DecodedValue(p.value, |FullValue(p.value)|))
    ensures var b := FullProp(p) + tail;
      && DecodeProp(b, true) == Some(DecodedProp(p, |FullProp(p)|))
      && DecodeInt24(b) != OBJECT_END as int
  {
    hide DecodeValue, FullValue;
    var v, n := FullValue(p.value) + tail, |p.name|;
    assert EncodeInt16(n) == [n / 0x100 % 0x100, n % 0x100];
    NameParts(EncodeInt16(n), p.name, FullValue(p.value), tail);
    DecodeEncodeInt16(n, p.name + v);
    hide EncodeInt16;
  }

  lemma NameParts(size: seq<byte>, name: seq<byte>, value: seq<byte>, tail: seq<byte>)
    requires |size| == 2
    ensures var b := size + name + value + tail;
      && b == size + (name + (value + tail))
      && b[2..2 + |name|] == name && b[2 + |name|..] == value + tail
  {}

  lemma {:induction false} PropsRoundTrip(props: seq<Prop>, tail: seq<byte>)
    requires AllPlain(props)
    ensures AllEncodable(props)
    ensures DecodeProps(FullProps(props) + END_MARK + tail, true, false)
            == Some(DecodedProps(props, |FullProps(props)| + 3))
    decreases props
  {
    hide DecodeProp, FullProp;
    AllPlainIsEncodable(props);
    if props == [] {
      assert FullProps(props) + END_MARK + tail == END_MARK + tail;
    } else {
      var more := FullProps(props[1..]) + END_MARK + tail;
      ValueRoundTrip(props[0].value, more);
      PropRoundTrip(props[0], more);
      PropsRoundTrip(props[1..], tail);
      var b := FullProps(props) + END_MARK + tail;
      assert b == FullProp(props[0]) + more;
      assert b[0..] == b && Drop(b, |FullProp(props[0])|) == more;
      assert [props[0]] + props[1..] == props;
    }
  }

  // ----- truncation -----

  /** `b` is `a` with property lists, at any depth, cut to prefixes. */
  predicate IsCut(a: Value, b: Value)
    decreases a, 0
  {
    if a.Object? then b.Object? && AllCut(a.props, b.props) else a == b
  }

  predicate AllCut(ps: seq<Prop>, qs: seq<Prop>)
    decreases ps
  {
    qs == [] || (ps != [] && qs[0].name == ps[0].name && IsCut(ps[0].value, qs[0].value) && AllCut(ps[1..], qs[1..]))
  }

  /** What the bounded encoder keeps of a value that it does write. */
  function Kept(v: Value, room: int): Value
    decreases v, 0
  {
    if v.Object? && room > 4 then Object(AllKept(v.props, room - 1)) else v
  }

  function AllKept(props: seq<Prop>, room: int): seq<Prop>
    requires room >= 0
    decreases props
  {
    if props == [] then []
    else
      match EncodeProp(props[0], room)
      case None => []
      case Some(first) =>
        [Prop(props[0].name, Kept(props[0].value, room - |NameBytes(props[0])|))] + AllKept(props[1..], room - |first|)
  }

  /** Whatever the room, output that is not refused is the full encoding of a cut of the input. */
  lemma {:induction false} TruncationIsCut(v: Value, room: int)
    requires Plain(v) && EncodeValue(v, room).Some?
    ensures var k := Kept(v, room);
      IsCut(v, k) && Plain(k) && Encodable(k) && EncodeValue(v, room).value == FullValue(k)
    decreases v, 0
  {
    if v.Object? {
      AllTruncated(v.props, room - 1);
    }
  }

  lemma {:induction false} AllTruncated(props: seq<Prop>, room: int)
    requires room >= 0 && AllPlain(props)
    ensures var k := AllKept(props, room);
      AllCut(props, k) && AllPlain(k) && AllEncodable(k) && EncodeProps(props, room) == FullProps(k)
    decreases props
  {
    if props != [] && EncodeProp(props[0], room).Some? {
      var p, first := props[0], EncodeProp(props[0], room).value;
      TruncationIsCut(p.value, room - |NameBytes(p)|);
      AllTruncated(props[1..], room - |first|);
      var q := Prop(p.name, Kept(p.value, room - |NameBytes(p)|));
      var rest := AllKept(props[1..], room - |first|);
      assert AllKept(props, room) == [q] + rest && ([q] + rest)[1..] == rest;
      assert FullProp(q) == first;
    }
  }

  /**
   AMF_Encode into any buffer: a result that is not NULL stays strictly inside the buffer and
   decodes, whatever follows it, to the object with some property lists cut short.
   */
  lemma TruncatedOutputDecodes(props: seq<Prop>, room: int, tail: seq<byte>)
    requires AllPlain(props) && EncodeObject(props, room).Some?
    ensures var b := EncodeObject(props, room).value;
      var d := DecodeValue(b + tail);
      |b| < room && d.Some? && d.value.size == |b| && IsCut(Object(props), d.value.value)
  {
    TruncationIsCut(Object(props), room);
    ValueRoundTrip(Kept(Object(props), room), tail);
  }

  /** Nothing is cut exactly when there is one byte more room than the encoding needs. */
  lemma {:induction false} CompleteIff(props: seq<Prop>, room: int)
    requires AllEncodable(props)
    ensures EncodeObject(props, room) == Some(FullValue(Object(props))) <==> room > |FullValue(Object(props))|
  {
    if room > |FullValue(Object(props))| {
      AllFit(props, room - 1);
    }
  }

  /** What is decoded from bounded output is the whole object exactly when nothing had to be cut. */
  lemma WholeAgainIff(props: seq<Prop>, room: int, tail: seq<byte>)
    requires AllPlain(props) && EncodeObject(props, room).Some?
    ensures AllEncodable(props) && DecodeValue(EncodeObject(props, room).value + tail).Some?
    ensures DecodeValue(EncodeObject(props, room).value + tail).value.value == Object(props)
            <==> room > |FullValue(Object(props))|
  {
    AllPlainIsEncodable(props);
    var k := Kept(Object(props), room);
    TruncationIsCut(Object(props), room);
    ValueRoundTrip(k, tail);
    CompleteIff(props, room);
    ValueRoundTrip(Object(props), tail);
    hide FullValue, DecodeValue, EncodeValue, Kept;
  }

  lemma {:induction false} ValueFits(v: Value, room: int)
    requires Encodable(v) && room > |FullValue(v)| + 3
    ensures EncodeValue(v, room) == Some(FullValue(v))
    decreases v, 0
  {
    if v.Object? {
      AllFit(v.props, room - 1);
    }
  }

  lemma {:induction false} AllFit(props: seq<Prop>, room: int)
    requires AllEncodable(props) && room > |FullProps(props)| + 3
    ensures EncodeProps(props, room) == FullProps(props)
    decreases props
  {
    if props != [] {
      var p := props[0];
      ValueFits(p.value, room - |NameBytes(p)|);
      AllFit(props[1..], room - |FullProp(p)|);
    }
  }

  // ----- value lists without names, as in invoke messages -----

  predicate PlainOrNull(v: Value) {
    v.Null? || Plain(v)
  }

  function FullValues(vs: seq<Value>): seq<byte>
    requires forall v | v in vs :: Encodable(v)
  {
    if vs == [] then [] else FullValue(vs[0]) + FullValues(vs[1..])
  }

  function Unnamed(vs: seq<Value>): (ps: seq<Prop>)
    ensures |ps| == |vs|
  {
    if vs == [] then [] else [Prop([], vs[0])] + Unnamed(vs[1..])
  }

  /** A number whose marker and first two bytes read as the end mark 00 00 09. */
  predicate LooksLikeEnd(v: Value) {
    v.Number? && v.bits[0] == 0 && v.bits[1] == 9
  }

  /** The values before the first number that looks like the end mark. */
  function BeforeEnd(vs: seq<Value>): seq<Value> {
    if vs == [] || LooksLikeEnd(vs[0]) then [] else [vs[0]] + BeforeEnd(vs[1..])
  }

  lemma FirstOfList(v: Value, tail: seq<byte>)
    requires PlainOrNull(v)
    ensures Encodable(v) && DecodeValue(FullValue(v) + tail) == Some(DecodedValue(v, |FullValue(v)|))
    ensures var b := FullValue(v) + tail;
      (|b| >= 3 && DecodeInt24(b) == OBJECT_END as int) <==> LooksLikeEnd(v)
  {
    if v.Null? {
    } else {
      ValueRoundTrip(v, tail);
      if v.Number? {
        var b := FullValue(v) + tail;
        assert b[1] == v.bits[0] && b[2] == v.bits[1];
      }
    }
  }

  lemma {:induction false} ListDecodes(vs: seq<Value>)
    requires forall v | v in vs :: PlainOrNull(v)
    ensures forall v | v in vs :: Encodable(v)
    ensures var d := DecodeProps(FullValues(vs), false, false);
      && d.Some? && d.value.props == Unnamed(BeforeEnd(vs))
      && (BeforeEnd(vs) == vs ==> d.value.size == |FullValues(vs)|)
    decreases |vs|
  {
    forall v | v in vs ensures Encodable(v) {
      FirstOfList(v, []);
    }
    if vs != [] {
      hide DecodeValue, FullValue;
      var rest := FullValues(vs[1..]);
      var b := FullValue(vs[0]) + rest;
      FirstOfList(vs[0], rest);
      ListDecodes(vs[1..]);
      assert b[0..] == b && Drop(b, |FullValue(vs[0])|) == rest;
      assert LooksLikeEnd(vs[0]) || BeforeEnd(vs)[1..] == BeforeEnd(vs[1..]);
    }
  }

  lemma {:induction false} BeforeEndIsAll(vs: seq<Value>)
    ensures |BeforeEnd(vs)| <= |vs|
    ensures |BeforeEnd(vs)| == |vs| <==> forall i | 0 <= i < |vs| :: !LooksLikeEnd(vs[i])
    ensures |BeforeEnd(vs)| == |vs| ==> BeforeEnd(vs) == vs
    decreases |vs|
  {
    if vs != [] {
      BeforeEndIsAll(vs[1..]);
      assert forall i | 0 < i < |vs| :: vs[i] == vs[1..][i - 1];
      assert forall i | 0 <= i < |vs| - 1 :: vs[1..][i] == vs[i + 1];
    }
  }

  /** A nameless value list comes back whole if and only if no number in it looks like the end mark. */
  lemma ValueListRoundTripIff(vs: seq<Value>)
    requires forall v | v in vs :: PlainOrNull(v)
    ensures forall v | v in vs :: Encodable(v)
    ensures DecodeProps(FullValues(vs), false, false) == Some(DecodedProps(Unnamed(vs), |FullValues(vs)|))
            <==> forall i | 0 <= i < |vs| :: !LooksLikeEnd(vs[i])
  {
    ListDecodes(vs);
    BeforeEndIsAll(vs);
  }

  // ----- what the format's implementation loses -----

  lemma Skipped(skip: nat, size: nat)
    ensures Continue([], skip, Some(DecodedProps([], size))) == Some(DecodedProps([], skip + size))
  {
    var none: seq<Prop> := [];
    assert none + none == none;
  }

  /** A null property is written without its name, and the decoder then skips to the end mark: it vanishes. */
  lemma NullPropertyIsLost(name: seq<byte>)
    ensures FullValue(Object([Prop(name, Null)])) == [OBJECT, NULL] + END_MARK
    ensures DecodeValue([OBJECT, NULL] + END_MARK) == Some(DecodedValue(Object([]), 5))
  {
    NullEncoded(name);
    NullSkipped();
    assert ([OBJECT, NULL] + END_MARK)[1..] == [NULL] + END_MARK;
  }

  lemma NullEncoded(name: seq<byte>)
    ensures FullValue(Object([Prop(name, Null)])) == [OBJECT, NULL] + END_MARK
  {
    var p := Prop(name, Null);
    assert [p][1..] == [] && FullProps([]) == [];
    assert FullProp(p) == [NULL];
    assert FullProps([p]) == FullProp(p) + FullProps([p][1..]) == [NULL];
  }

  lemma NullSkipped()
    ensures DecodeProps([NULL] + END_MARK, true, false) == Some(DecodedProps([], 4))
  {
    var b: seq<byte> := [NULL, 0, 0, 9];
    assert b == [NULL] + END_MARK && b[0..] == b && b[1..] == END_MARK;
    assert DecodeInt24(b) == 0x5_0000 && DecodeInt16(b) == 0x500 && DecodeInt24(END_MARK) == 9;
    assert DecodeProps(END_MARK, true, true) == Some(DecodedProps([], 3));
    Skipped(1, 3);
    Skipped(0, 4);
    assert DecodeProp(END_MARK, true).None? && DecodeProp(b, true).None?;
    assert DecodeProps(b, true, true) == Some(DecodedProps([], 4));
  }

  /** An array marker at the very end claims four bytes more than there are. */
  lemma ArrayMarkerOverruns()
    ensures DecodeValue([ECMA_ARRAY]) == Some(DecodedValue(Object([]), 5))
  {
    assert DecodeProps([], true, false) == Some(DecodedProps([], 0));
  }
}
