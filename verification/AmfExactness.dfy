/**
 Exactly which trees survive being encoded and decoded, and when the decoder stays inside its
 buffer (librtmp/amf.c:349-399, 584-766, 844-874, 1034-1077).
 */
module AmfExactness {
  import opened Wrappers
  import opened Bytes
  import opened Amf0
  import opened AmfRoundTrip

  // ----- a decoded tree is paid for in bytes -----

  /** The least number of bytes that can be decoded to `v`. */
  function Weight(v: Value): nat
    decreases v, 0
  {
    match v
    case Number(_) => 9
    case Boolean(_) => 2
    case Str(s) => if |s| < 0x1_0000 then 3 + |s| else 5 + |s|
    case Object(props) => 4 + AllWeight(props)
    case Null => 1
    case Date(_, _) => 11
  }

  function AllWeight(props: seq<Prop>): nat
    decreases props
  {
    if props == [] then 0 else 2 + |props[0].name| + Weight(props[0].value) + AllWeight(props[1..])
  }

  /** Names as long as their length field allows. */
  predicate NamesFit(v: Value)
    decreases v, 0
  {
    v.Object? ==> AllNamesFit(v.props)
  }

  predicate AllNamesFit(props: seq<Prop>)
    decreases props
  {
    props == [] || (|props[0].name| < 0x1_0000 && NamesFit(props[0].value) && AllNamesFit(props[1..]))
  }

  lemma {:induction false} ValueIsPaid(b: seq<byte>)
    ensures var r := DecodeValue(b);
      r.Some? && r.value.size < |b| ==> Weight(r.value.value) <= r.value.size && NamesFit(r.value.value)
    decreases |b|, 0
  {
    hide DecodeProps;
    if b != [] && b[0] == OBJECT {
      PropsArePaid(b[1..], false);
    } else if b != [] && b[0] == ECMA_ARRAY {
      PropsArePaid(Drop(b[1..], 4), false);
    }
  }

  lemma {:induction false} PropIsPaid(b: seq<byte>)
    ensures var r := DecodeProp(b, true);
      r.Some? && r.value.size < |b| ==>
        && 2 + |r.value.prop.name| + Weight(r.value.prop.value) <= r.value.size
        && |r.value.prop.name| < 0x1_0000 && NamesFit(r.value.prop.value)
    decreases |b|, 1
  {
    hide DecodeValue;
    if |b| >= 4 && DecodeInt16(b) <= |b| - 2 {
      ValueIsPaid(b[2 + DecodeInt16(b)..]);
    }
  }

  /** Nothing is left over only if the end mark was found. */
  lemma {:induction false} PropsArePaid(b: seq<byte>, failed: bool)
    ensures var r := DecodeProps(b, true, failed);
      r.Some? && r.value.size < |b| ==> 3 + AllWeight(r.value.props) <= r.value.size && AllNamesFit(r.value.props)
    decreases |b|, if failed then 2 else 3
  {
    hide DecodeProp, Weight, NamesFit;
    if b != [] && !(|b| >= 3 && DecodeInt24(b) == OBJECT_END as int) {
      var more := b[if failed then 1 else 0..];
      match DecodeProp(more, true)
      case None =>
        PropsArePaid(more, true);
        NothingAdded(DecodeProps(more, true, true));
      case Some(d) =>
        PropIsPaid(more);
        PropsArePaid(Drop(more, d.size), false);
        FirstPaid(d.prop, DecodeProps(Drop(more, d.size), true, false));
    }
  }

  lemma NothingAdded(rest: Option<DecodedProps>)
    ensures rest.Some? ==> [] + rest.value.props == rest.value.props
  {}

  lemma FirstPaid(p: Prop, rest: Option<DecodedProps>)
    ensures rest.Some? ==>
      && AllWeight([p] + rest.value.props) == 2 + |p.name| + Weight(p.value) + AllWeight(rest.value.props)
      && (|p.name| < 0x1_0000 && NamesFit(p.value) && AllNamesFit(rest.value.props)
          ==> AllNamesFit([p] + rest.value.props))
  {
    if rest.Some? {
      assert ([p] + rest.value.props)[1..] == rest.value.props;
    }
  }

  // ----- what an encoding pays -----

  /** Strings the decoder's `int` sizes can hold. */
  predicate SmallStrings(v: Value)
    decreases v, 0
  {
    match v
    case Str(s) => |s| < 0x8000_0000
    case Object(props) => AllSmallStrings(props)
    case _ => true
  }

  predicate AllSmallStrings(props: seq<Prop>)
    decreases props
  {
    props == [] || (SmallStrings(props[0].value) && AllSmallStrings(props[1..]))
  }

  /** An encoding is never longer than the weight, and shorter unless the tree is plain. */
  lemma {:induction false} EncodingPays(v: Value)
    requires Encodable(v) && SmallStrings(v)
    ensures |FullValue(v)| <= Weight(v)
    ensures |FullValue(v)| == Weight(v) && NamesFit(v) ==> PlainOrNull(v)
    decreases v, 0
  {
    if v.Object? {
      AllEncodingsPay(v.props);
    }
  }

  lemma {:induction false} AllEncodingsPay(props: seq<Prop>)
    requires AllEncodable(props) && AllSmallStrings(props)
    ensures |FullProps(props)| <= AllWeight(props)
    ensures |FullProps(props)| == AllWeight(props) && AllNamesFit(props) ==> AllPlain(props)
    decreases props
  {
    if props != [] {
      EncodingPays(props[0].value);
      AllEncodingsPay(props[1..]);
    }
  }

  // ----- the round trip, exactly -----

  /**
   In front of other bytes, a tree comes back whole and takes exactly its encoding if and only if
   it has no null as a property and every property has a name that fits its length field.
   */
  lemma ValueRoundTripIff(v: Value, tail: seq<byte>)
    requires Encodable(v) && SmallStrings(v) && tail != []
    ensures DecodeValue(FullValue(v) + tail) == Some(DecodedValue(v, |FullValue(v)|)) <==> PlainOrNull(v)
  {
    if PlainOrNull(v) {
      FirstOfList(v, tail);
    } else {
      ValueIsPaid(FullValue(v) + tail);
      EncodingPays(v);
    }
  }

  /** The same for a property list and its end mark. */
  lemma PropsRoundTripIff(props: seq<Prop>, tail: seq<byte>)
    requires AllEncodable(props) && AllSmallStrings(props) && tail != []
    ensures DecodeProps(FullProps(props) + END_MARK + tail, true, false)
            == Some(DecodedProps(props, |FullProps(props)| + 3))
            <==> AllPlain(props)
  {
    if AllPlain(props) {
      PropsRoundTrip(props, tail);
    } else {
      PropsArePaid(FullProps(props) + END_MARK + tail, false);
      AllEncodingsPay(props);
    }
  }

  /** Whatever follows: the promise holds for all trailing bytes exactly for these trees. */
  lemma AnyTailRoundTripIff(v: Value)
    requires Encodable(v) && SmallStrings(v)
    ensures (forall tail :: DecodeValue(FullValue(v) + tail) == Some(DecodedValue(v, |FullValue(v)|)))
            <==> PlainOrNull(v)
  {
    if PlainOrNull(v) {
      forall tail ensures DecodeValue(FullValue(v) + tail) == Some(DecodedValue(v, |FullValue(v)|)) {
        FirstOfList(v, tail);
      }
    } else {
      ValueRoundTripIff(v, [0]);
    }
  }

  // ----- staying inside the buffer -----

  /** No array marker so close to the end that the count behind it is cut off. */
  predicate NoLateArray(b: seq<byte>) {
    forall i | 0 <= i < |b| && |b| - 4 <= i :: b[i] != ECMA_ARRAY
  }

  lemma SuffixHasNone(b: seq<byte>, n: nat)
    requires NoLateArray(b)
    ensures NoLateArray(Drop(b, n)) && (n <= |b| ==> NoLateArray(b[n..]))
  {}

  lemma {:induction false} ValueStaysInside(b: seq<byte>)
    requires NoLateArray(b)
    ensures DecodeValue(b).Some? ==> DecodeValue(b).value.size <= |b|
    decreases |b|, 0
  {
    hide DecodeProps;
    if b != [] {
      SuffixHasNone(b, 1);
      SuffixHasNone(b[1..], 4);
      PropsStayInside(b[1..], true, false);
      PropsStayInside(Drop(b[1..], 4), true, false);
    }
  }

  lemma {:induction false} PropStaysInside(b: seq<byte>, named: bool)
    requires NoLateArray(b)
    ensures DecodeProp(b, named).Some? ==> DecodeProp(b, named).value.size <= |b|
    decreases |b|, 1
  {
    hide DecodeValue, NoLateArray;
    if !named {
      ValueStaysInside(b);
    } else if |b| >= 4 && DecodeInt16(b) <= |b| - 2 {
      SuffixHasNone(b, 2 + DecodeInt16(b));
      ValueStaysInside(b[2 + DecodeInt16(b)..]);
    }
  }

  /** Without such a marker no decoding claims more bytes than there are. */
  lemma {:induction false} PropsStayInside(b: seq<byte>, named: bool, failed: bool)
    requires NoLateArray(b)
    ensures DecodeProps(b, named, failed).Some? ==> DecodeProps(b, named, failed).value.size <= |b|
    decreases |b|, if failed then 2 else 3
  {
    hide DecodeProp, NoLateArray;
    if b != [] {
      var skip := if failed then 1 else 0;
      SuffixHasNone(b, skip);
      match DecodeProp(b[skip..], named)
      case None =>
        if !failed || |b| > 1 {
          PropsStayInside(b[skip..], named, true);
        }
      case Some(d) =>
        PropStaysInside(b[skip..], named);
        SuffixHasNone(b[skip..], d.size);
        PropsStayInside(Drop(b[skip..], d.size), named, false);
    }
  }
}
