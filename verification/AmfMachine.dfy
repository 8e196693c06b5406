/**
 AMF_Encode and AMF_Decode as the loops they are (librtmp/amf.c:349-396, 564-729, 845-874, 1035-1077):
 the encoder writes into a bounded buffer, the decoder moves over one.
 */
module AmfMachine {
  import opened Wrappers
  import opened Bytes
  import opened Memory
  import opened Amf0
  import opened AmfRoundTrip

  /** Where the writer stands after an encoding of `r`, or None for NULL. */
  function Advance(at: nat, r: Option<seq<byte>>): Option<nat> {
    match r
    case None => None
    case Some(b) => Some(at + |b|)
  }

  /** AMF_EncodeNumber; the eight bytes are in the order of the format. */
  method EncodeNumberInto(bits: seq<byte>, buf: array<byte>, at: nat, end: nat) returns (next: Option<nat>)
    requires at <= end <= buf.Length && |bits| == 8
    modifies buf
    ensures next == if end - at >= 9 then Some(at + 9) else None
    ensures next.Some? ==> buf[at..at + 9] == [NUMBER] + bits
    ensures forall i | 0 <= i < buf.Length && (i < at || i >= end) :: buf[i] == old(buf[i])
  {
    if at + 1 + 8 > end {
      return None;
    }
    buf[at] := NUMBER;
    Store(buf, at + 1, bits);
    assert buf[at..at + 9] == [buf[at]] + buf[at + 1..at + 1 + |bits|];
    next := Some(at + 9);
  }

  /** AMF_EncodeBoolean. */
  method EncodeBooleanInto(b: bool, buf: array<byte>, at: nat, end: nat) returns (next: Option<nat>)
    requires at <= end <= buf.Length
    modifies buf
    ensures next == if end - at >= 2 then Some(at + 2) else None
    ensures next.Some? ==> buf[at..at + 2] == [BOOLEAN, if b then 1 else 0]
    ensures forall i | 0 <= i < buf.Length && (i < at || i >= end) :: buf[i] == old(buf[i])
  {
    if at + 2 > end {
      return None;
    }
    buf[at], buf[at + 1] := BOOLEAN, if b then 1 else 0;
    next := Some(at + 2);
  }

  /** AMF_EncodeString: the room is checked as if every string had the longer length field. */
  method EncodeStringInto(s: seq<byte>, buf: array<byte>, at: nat, end: nat) returns (next: Option<nat>)
    requires at <= end <= buf.Length
    modifies buf
    ensures next.Some? <==> |s| + 5 <= end - at
    ensures next.Some? ==> next.value == at + |FullString(s)| && buf[at..next.value] == FullString(s)
    ensures forall i | 0 <= i < buf.Length && (i < at || i >= end) :: buf[i] == old(buf[i])
  {
    hide EncodeInt16, EncodeInt32;
    if (|s| < 0x1_0000 && at + 1 + 2 + |s| > end) || at + 1 + 4 + |s| > end {
      return None;
    }
    var pos := at + 1;
    if |s| < 0x1_0000 {
      buf[at] := STRING;
      Store(buf, pos, EncodeInt16(|s|));
      pos := pos + 2;
    } else {
      buf[at] := LONG_STRING;
      Store(buf, pos, EncodeInt32(|s|));
      pos := pos + 4;
    }
    ghost var head := buf[at + 1..pos];
    Store(buf, pos, s);
    StringWritten(buf, at, pos, head, s);
    next := Some(pos + |s|);
  }

  lemma StringWritten(buf: array<byte>, at: nat, pos: nat, size: seq<byte>, s: seq<byte>)
    requires at < pos && pos + |s| <= buf.Length && |size| == pos - (at + 1)
    requires forall i | at + 1 <= i < pos :: buf[i] == size[i - (at + 1)]
    requires buf[pos..pos + |s|] == s
    ensures buf[at..pos + |s|] == [buf[at]] + size + s
  {
    assert buf[at + 1..pos] == size;
    assert buf[at..pos + |s|] == [buf[at]] + buf[at + 1..pos] + buf[pos..pos + |s|];
  }

  /** The switch on the type, for all types but objects. */
  method EncodeScalarInto(v: Value, buf: array<byte>, at: nat, end: nat) returns (next: Option<nat>)
    requires at <= end <= buf.Length && !v.Object?
    modifies buf
    ensures next == Advance(at, EncodeValue(v, end - at))
    ensures next.Some? ==> buf[at..next.value] == EncodeValue(v, end - at).value
    ensures forall i | 0 <= i < buf.Length && (i < at || i >= end) :: buf[i] == old(buf[i])
  {
    hide FullString;
    match v
    case Number(bits) => next := EncodeNumberInto(bits, buf, at, end);
    case Boolean(b) => next := EncodeBooleanInto(b, buf, at, end);
    case Str(s) => next := EncodeStringInto(s, buf, at, end);
    case Null =>
      if at + 1 >= end {
        return None;
      }
      buf[at] := NULL;
      next := Some(at + 1);
    case Date(_, _) => next := None;
  }

  /** The name behind its length, unless the value is a null or has no name. */
  method EncodeNameInto(p: Prop, buf: array<byte>, at: nat) returns (pos: nat)
    requires at + |NameBytes(p)| <= buf.Length
    modifies buf
    ensures pos == at + |NameBytes(p)| && buf[at..pos] == NameBytes(p)
    ensures forall i | 0 <= i < buf.Length && (i < at || i >= pos) :: buf[i] == old(buf[i])
  {
    pos := at;
    if !p.value.Null? && |p.name| > 0 {
      buf[at], buf[at + 1] := |p.name| / 0x100 % 0x100, |p.name| % 0x100;
      Store(buf, at + 2, p.name);
      pos := at + 2 + |p.name|;
      assert buf[at..pos] == [buf[at], buf[at + 1]] + buf[at + 2..pos];
    }
  }

  /** AMFProp_Encode. */
  method EncodePropInto(p: Prop, buf: array<byte>, at: nat, end: nat) returns (next: Option<nat>)
    requires at <= end <= buf.Length
    modifies buf
    ensures next == Advance(at, EncodeProp(p, end - at))
    ensures next.Some? ==> buf[at..next.value] == EncodeProp(p, end - at).value
    ensures forall i | 0 <= i < buf.Length && (i < at || i >= end) :: buf[i] == old(buf[i])
    decreases p.value, 1
  {
    hide EncodeValue;
    if !p.value.Null? && at + |p.name| + 2 + 1 >= end {
      return None;
    }
    var pos := EncodeNameInto(p, buf, at);
    ghost var name := buf[at..pos];
    if p.value.Object? {
      next := EncodeObjectInto(p.value.props, buf, pos, end);
    } else {
      next := EncodeScalarInto(p.value, buf, pos, end);
    }
    if next.Some? {
      assert buf[at..pos] == name;
      assert buf[at..next.value] == buf[at..pos] + buf[pos..next.value];
    }
  }

  /** AMF_Encode: properties until one cannot be written, then the end mark if it still fits. */
  method EncodeObjectInto(props: seq<Prop>, buf: array<byte>, at: nat, end: nat) returns (next: Option<nat>)
    requires at <= end <= buf.Length
    modifies buf
    ensures next == Advance(at, EncodeObject(props, end - at))
    ensures next.Some? ==> buf[at..next.value] == EncodeObject(props, end - at).value
    ensures forall i | 0 <= i < buf.Length && (i < at || i >= end) :: buf[i] == old(buf[i])
    decreases props, 1
  {
    hide EncodeProps;
    if at + 4 >= end {
      return None;
    }
    buf[at] := OBJECT;
    var pos := EncodePropsInto(props, buf, at + 1, end);
    if pos + 3 >= end {
      return None;
    }
    ghost var was := buf[at + 1..pos];
    Store(buf, pos, END_MARK);
    ObjectWritten(buf, at, pos, was);
    next := Some(pos + 3);
  }

  lemma ObjectWritten(buf: array<byte>, at: nat, pos: nat, body: seq<byte>)
    requires at < pos && pos + 3 <= buf.Length
    requires buf[at] == OBJECT && |body| == pos - (at + 1)
    requires forall i | at + 1 <= i < pos :: buf[i] == body[i - (at + 1)]
    requires buf[pos..pos + 3] == END_MARK
    ensures buf[at..pos + 3] == [OBJECT] + body + END_MARK
  {
    assert buf[at + 1..pos] == body;
    assert buf[at..pos + 3] == [buf[at]] + buf[at + 1..pos] + buf[pos..pos + 3];
  }

  method EncodePropsInto(props: seq<Prop>, buf: array<byte>, at: nat, end: nat) returns (pos: nat)
    requires at <= end <= buf.Length
    modifies buf
    ensures at <= pos <= end && buf[at..pos] == EncodeProps(props, end - at)
    ensures forall i | 0 <= i < buf.Length && (i < at || i >= end) :: buf[i] == old(buf[i])
    decreases props, 0
  {
    hide EncodeProp, EncodeValue, EncodeProps;
    pos := at;
    ghost var todo, done := props, [];
    var i := 0;
    while i < |props|
      invariant i <= |props| && todo == props[i..] && at <= pos <= end
      invariant done == buf[at..pos]
      invariant done + EncodeProps(todo, end - pos) == EncodeProps(props, end - at)
      invariant forall k | 0 <= k < buf.Length && (k < at || k >= end) :: buf[k] == old(buf[k])
    {
      assert todo[0] == props[i];
      LoopStep(todo, end - pos, done);
      var res := EncodePropInto(props[i], buf, pos, end);
      assert buf[at..pos] == done;
      if res.None? {
        break;
      }
      assert buf[at..res.value] == done + EncodeProp(todo[0], end - pos).value;
      done := done + EncodeProp(todo[0], end - pos).value;
      pos := res.value;
      i := i + 1;
      todo := todo[1..];
    }
    if i == |props| {
      NothingLeft(end - pos);
      assert done + [] == done;
    }
  }

  lemma NothingLeft(room: nat)
    ensures EncodeProps([], room) == []
  {}

  /** One turn of the property loop. */
  lemma LoopStep(todo: seq<Prop>, room: nat, done: seq<byte>)
    requires todo != []
    ensures var first := EncodeProp(todo[0], room);
      if first.None? then done + EncodeProps(todo, room) == done
      else done + first.value + EncodeProps(todo[1..], room - |first.value|) == done + EncodeProps(todo, room)
  {}

  // ----- decoding -----

  /** The `n` bytes from `at` on; an array count that is cut off leaves a negative number of them. */
  ghost function Window(buf: array<byte>, at: nat, n: int): (w: seq<byte>)
    requires n > 0 ==> at + n <= buf.Length
    reads buf
    ensures |w| == if n > 0 then n else 0
  {
    if n > 0 then buf[at..at + n] else []
  }

  method ReadInt16(buf: array<byte>, p: nat) returns (n: nat)
    requires p + 2 <= buf.Length
    ensures n == DecodeInt16(buf[p..p + 2])
  {
    n := buf[p] as int * 0x100 + buf[p + 1];
  }

  method ReadInt24(buf: array<byte>, p: nat) returns (n: nat)
    requires p + 3 <= buf.Length
    ensures n == DecodeInt24(buf[p..p + 3])
  {
    n := buf[p] as int * 0x1_0000 + buf[p + 1] as int * 0x100 + buf[p + 2];
  }

  method ReadInt32(buf: array<byte>, p: nat) returns (n: nat)
    requires p + 4 <= buf.Length
    ensures n == DecodeInt32(buf[p..p + 4])
  {
    n := buf[p] as int * 0x100_0000 + buf[p + 1] as int * 0x1_0000 + buf[p + 2] as int * 0x100 + buf[p + 3];
  }

  /** A string of `length` bytes behind a length field of `field` bytes. */
  method TakeString(buf: array<byte>, p: nat, n: nat, field: nat, length: nat) returns (v: Option<Value>, left: int)
    requires p + n <= buf.Length && field <= n
    ensures left == n - field - length && (v.None? <==> left < 0)
    ensures v.Some? ==> v.value == Str(buf[p + field..p + field + length])
  {
    left := n - field - length;
    v := if left < 0 then None else Some(Str(buf[p + field..p + field + length]));
  }

  lemma Within(buf: array<byte>, p: nat, n: nat, i: nat, k: nat)
    requires p + n <= buf.Length && i + k <= n
    ensures buf[p..p + n][i..i + k] == buf[p + i..p + i + k]
  {
    var all, part := buf[p..p + n], buf[p + i..p + i + k];
    assert forall j | 0 <= j < k :: part[j] == all[i + j];
  }

  /** What the type marker `t` and the `n` bytes behind it decode to, when `left` of these stay behind. */
  ghost predicate Agrees(t: byte, w: seq<byte>, v: Option<Value>, left: int) {
    var r := DecodeValue([t] + w);
    if v.None? then r.None?
    else left <= |w| && r == Some(DecodedValue(v.value, 1 + |w| - left))
  }

  method DecodeShortString(buf: array<byte>, p: nat, n: nat) returns (v: Option<Value>, left: int)
    requires p + n <= buf.Length
    ensures Agrees(STRING, buf[p..p + n], v, left)
  {
    hide DecodeProps;
    ghost var w := buf[p..p + n];
    assert ([STRING] + w)[1..] == w;
    if n < 2 {
      return None, n;
    }
    var length := ReadInt16(buf, p);
    v, left := TakeString(buf, p, n, 2, length);
    if left >= 0 {
      Within(buf, p, n, 2, length);
    }
  }

  method DecodeLongString(buf: array<byte>, p: nat, n: nat) returns (v: Option<Value>, left: int)
    requires p + n <= buf.Length
    ensures Agrees(LONG_STRING, buf[p..p + n], v, left)
  {
    hide DecodeProps;
    ghost var w := buf[p..p + n];
    assert ([LONG_STRING] + w)[1..] == w;
    if n < 4 {
      return None, n;
    }
    var length := ReadInt32(buf, p);
    v, left := TakeString(buf, p, n, 4, length);
    if left >= 0 {
      Within(buf, p, n, 4, length);
    }
  }

  method DecodeDate(buf: array<byte>, p: nat, n: nat) returns (v: Option<Value>, left: int)
    requires p + n <= buf.Length
    ensures Agrees(DATE, buf[p..p + n], v, left)
  {
    hide DecodeProps;
    ghost var w := buf[p..p + n];
    assert ([DATE] + w)[1..] == w;
    if n < 10 {
      return None, n;
    }
    var offset := ReadInt16(buf, p + 8);
    assert w[..8] == buf[p..p + 8] && w[8..][0] == buf[p + 8] && w[8..][1] == buf[p + 9];
    v, left := Some(Date(buf[p..p + 8], offset)), n - 10;
  }

  /** Numbers, booleans, the empty types, and what is refused. */
  method DecodeFixed(t: byte, buf: array<byte>, p: nat, n: nat) returns (v: Option<Value>, left: int)
    requires p + n <= buf.Length
    requires t !in {OBJECT, ECMA_ARRAY, STRING, LONG_STRING, DATE}
    ensures Agrees(t, buf[p..p + n], v, left)
  {
    hide DecodeProps;
    ghost var w := buf[p..p + n];
    assert ([t] + w)[1..] == w;
    v, left := None, n;
    if t == NUMBER {
      if n >= 8 {
        assert w[..8] == buf[p..p + 8];
        v, left := Some(Number(buf[p..p + 8])), n - 8;
      }
    } else if t == BOOLEAN {
      if n >= 1 {
        v, left := Some(Boolean(buf[p] != 0)), n - 1;
      }
    } else if t == NULL || t == UNDEFINED || t == UNSUPPORTED {
      v := Some(Null);
    }
  }

  /** An object, or an array whose count is skipped without looking whether it is there. */
  method DecodeTree(t: byte, buf: array<byte>, p: nat, n: nat) returns (v: Option<Value>, left: int)
    requires p + n <= buf.Length && (t == OBJECT || t == ECMA_ARRAY)
    ensures Agrees(t, buf[p..p + n], v, left)
    decreases n, 5
  {
    hide DecodeProps;
    ghost var w := buf[p..p + n];
    assert ([t] + w)[1..] == w;
    var skip := if t == OBJECT then 0 else 4;
    assert Window(buf, p + skip, n - skip) == Drop(w, skip);
    assert Drop(w, 0) == w;
    var o := DecodeObjectAt(buf, p + skip, n - skip, true);
    if o.None? {
      return None, n;
    }
    v, left := Some(Object(o.value.props)), n - skip - o.value.size;
  }

  /** The type marker and the value behind it. */
  method DecodeValueAt(buf: array<byte>, at: nat, nSize: nat) returns (r: Option<DecodedValue>)
    requires at + nSize <= buf.Length
    ensures r == DecodeValue(buf[at..at + nSize])
    decreases nSize, 0
  {
    if nSize == 0 {
      return None;
    }
    var t, p, n := buf[at], at + 1, nSize - 1;
    assert buf[at..at + nSize] == [t] + buf[p..p + n];
    hide DecodeValue;
    var v, left;
    if t == OBJECT || t == ECMA_ARRAY {
      v, left := DecodeTree(t, buf, p, n);
    } else if t == STRING {
      v, left := DecodeShortString(buf, p, n);
    } else if t == LONG_STRING {
      v, left := DecodeLongString(buf, p, n);
    } else if t == DATE {
      v, left := DecodeDate(buf, p, n);
    } else {
      v, left := DecodeFixed(t, buf, p, n);
    }
    r := if v.None? then None else Some(DecodedValue(v.value, nSize - left));
  }

  /** AMFProp_Decode: name, type marker and value in `nSize` bytes of the buffer. */
  method DecodePropAt(buf: array<byte>, at: nat, nSize: nat, named: bool) returns (r: Option<DecodedProp>)
    requires at + nSize <= buf.Length
    ensures r == DecodeProp(buf[at..at + nSize], named)
    decreases nSize, 1
  {
    hide DecodeValue;
    ghost var b := buf[at..at + nSize];
    if nSize == 0 || (named && nSize < 4) {
      return None;
    }
    var name, p, n := [], at, nSize;
    if named {
      var nNameSize := ReadInt16(buf, at);
      if nNameSize > nSize - 2 {
        return None;
      }
      name, p, n := buf[at + 2..at + 2 + nNameSize], at + 2 + nNameSize, nSize - 2 - nNameSize;
      assert name == b[2..2 + nNameSize] && buf[p..p + n] == b[2 + nNameSize..];
    }
    var v := DecodeValueAt(buf, p, n);
    r := if v.None? then None else Some(DecodedProp(Prop(name, v.value.value), p - at + v.value.size));
  }

  method AtEndMark(buf: array<byte>, at: nat, nSize: nat) returns (yes: bool)
    requires nSize > 0 && at + nSize <= buf.Length
    ensures var w := Window(buf, at, nSize); yes <==> |w| >= 3 && DecodeInt24(w) == OBJECT_END as int
  {
    yes := false;
    if nSize >= 3 {
      var mark := ReadInt24(buf, at);
      assert Window(buf, at, nSize)[..3] == buf[at..at + 3];
      yes := mark == OBJECT_END as int;
    }
  }

  /** One property taken off the bytes, or `failed` and nothing taken. */
  method TakeProp(buf: array<byte>, at: nat, nSize: nat, named: bool)
    returns (more: seq<Prop>, p: nat, n: int, failed: bool)
    requires at + nSize <= buf.Length
    ensures var d := DecodeProp(Window(buf, at, nSize), named);
      if d.None? then more == [] && p == at && n == nSize && failed
      else
        && more == [d.value.prop] && p == at + d.value.size && n == nSize - d.value.size && !failed
        && Window(buf, p, n) == Drop(Window(buf, at, nSize), d.value.size)
    ensures n > 0 ==> p + n <= buf.Length
    decreases nSize, 2
  {
    hide DecodeProp;
    assert buf[at..at + nSize] == Window(buf, at, nSize);
    var d := DecodePropAt(buf, at, nSize, named);
    more, p, n, failed := [], at, nSize, true;
    if d.Some? {
      Behind(buf, at, nSize, d.value.size);
      more, p, n, failed := [d.value.prop], at + d.value.size, nSize - d.value.size, false;
    }
  }

  /**
   One turn of AMF_Decode: the end mark, or one property, or nothing and `failed` set. After a
   failure the next turn starts one byte further on.
   */
  method DecodeTurn(buf: array<byte>, at: nat, nSize: nat, named: bool, failed: bool)
    returns (ended: bool, more: seq<Prop>, p: nat, n: int, failed': bool)
    requires nSize > 0 && at + nSize <= buf.Length
    ensures ended ==> DecodeProps(Window(buf, at, nSize), named, failed) == Some(DecodedProps([], 3))
    ensures !ended ==>
      && p - at == nSize - n >= 0 && (n > 0 ==> p + n <= buf.Length)
      && (n < nSize || (n == nSize && failed' && !failed))
      && DecodeProps(Window(buf, at, nSize), named, failed)
         == Continue(more, p - at, DecodeProps(Window(buf, p, n), named, failed'))
    decreases nSize, 3
  {
    hide DecodeProps, DecodeProp, Continue, DecodeInt24;
    ghost var rest := Window(buf, at, nSize);
    ended := AtEndMark(buf, at, nSize);
    if ended {
      LoopTurn(rest, named, failed);
      return true, [], at, nSize, false;
    }
    var skip := if failed then 1 else 0;
    Behind(buf, at, nSize, skip);
    more, p, n, failed' := TakeProp(buf, at + skip, nSize - skip, named);
    Turn(rest, named, failed, Window(buf, at + skip, nSize - skip));
  }

  lemma Turn(b: seq<byte>, named: bool, failed: bool, now: seq<byte>)
    requires b != [] && !(|b| >= 3 && DecodeInt24(b) == OBJECT_END as int)
    requires now == Drop(b, if failed then 1 else 0)
    ensures var d, skip := DecodeProp(now, named), if failed then 1 else 0;
      DecodeProps(b, named, failed)
      == if d.None? then Continue([], skip, DecodeProps(now, named, true))
         else Continue([d.value.prop], skip + d.value.size, DecodeProps(Drop(now, d.value.size), named, false))
  {
    LoopTurn(b, named, failed);
    hide DecodeProps, DecodeProp, Continue;
  }

  lemma Behind(buf: array<byte>, at: nat, n: nat, k: nat)
    requires at + n <= buf.Length
    ensures Window(buf, at + k, n - k) == Drop(Window(buf, at, n), k)
  {}

  /** AMF_Decode: properties up to the end mark or the end of the bytes, of which there may be less than none. */
  method DecodeObjectAt(buf: array<byte>, at: nat, nSize: int, named: bool) returns (r: Option<DecodedProps>)
    requires nSize > 0 ==> at + nSize <= buf.Length
    ensures r == DecodeProps(Window(buf, at, nSize), named, false)
    decreases if nSize > 0 then nSize else 0, 4
  {
    hide DecodeProps, DecodeProp;
    var props, p: nat, n: int, failed := [], at, nSize, false;
    ghost var b := Window(buf, at, nSize);
    FirstTurn(b, named);
    while n > 0
      invariant p - at == nSize - n >= 0 && (n > 0 ==> p + n <= buf.Length)
      invariant DecodeProps(b, named, false) == Continue(props, p - at, DecodeProps(Window(buf, p, n), named, failed))
      decreases n, !failed
    {
      ghost var before := p - at;
      var ended, more, p', n', failed' := DecodeTurn(buf, p, n, named, failed);
      if ended {
        assert props + [] == props;
        return Some(DecodedProps(props, p - at + 3));
      }
      Joined(props, before, more, p' - p, DecodeProps(Window(buf, p', n'), named, failed'));
      props, p, n, failed := props + more, p', n', failed';
    }
    LastTurn(named, failed);
    assert props + [] == props;
    r := if failed then None else Some(DecodedProps(props, p - at));
  }

  /** What EncodeThenDecode promises of the bytes written and of what is read from them. */
  lemma WrittenDecodes(props: seq<Prop>, room: nat, tail: seq<byte>)
    requires AllPlain(props) && EncodeObject(props, room).Some?
    ensures AllEncodable(props)
    ensures var w := EncodeObject(props, room).value;
      var d := DecodeValue(w + tail);
      && 0 < |w| < room && d.Some? && d.value.size == |w| && IsCut(Object(props), d.value.value)
      && (d.value.value == Object(props) <==> room > |FullValue(Object(props))|)
  {
    AllPlainIsEncodable(props);
    TruncatedOutputDecodes(props, room, tail);
    WholeAgainIff(props, room, tail);
    hide EncodeProps, DecodeValue, FullValue, IsCut, AllPlain, AllEncodable;
  }

  lemma NoOutput(props: seq<Prop>, room: nat)
    requires AllEncodable(props) && EncodeObject(props, room).None?
    ensures room <= |FullValue(Object(props))|
  {
    CompleteIff(props, room);
    hide EncodeObject, FullValue, AllEncodable;
  }

  /** Decodes what stands at `at`, with whatever follows it. */
  method DecodeWritten(buf: array<byte>, at: nat, next: nat, ghost written: seq<byte>)
    returns (r: Option<DecodedValue>)
    requires at <= next <= buf.Length && buf[at..next] == written
    ensures r == DecodeValue(written + buf[next..])
  {
    hide *;
    assert buf[at..at + (buf.Length - at)] == written + buf[next..];
    r := DecodeValueAt(buf, at, buf.Length - at);
  }

  /**
   An object encoded into buf[at..end] and decoded from there, whatever bytes follow: a cut of the
   object, and all of it exactly when there was more room than its encoding needs.
   */
  method EncodeThenDecode(props: seq<Prop>, buf: array<byte>, at: nat, end: nat)
    returns (next: Option<nat>, r: Option<DecodedValue>)
    requires at <= end <= buf.Length && AllPlain(props)
    modifies buf
    ensures AllEncodable(props) && (next.Some? <==> r.Some?)
    ensures next.Some? ==>
      && at < next.value < end && r.value.size == next.value - at && IsCut(Object(props), r.value.value)
    ensures next.Some? && r.value.value == Object(props) <==> end - at > |FullValue(Object(props))|
  {
    AllPlainIsEncodable(props);
    hide *;
    next := EncodeObjectInto(props, buf, at, end);
    r := None;
    if next.None? {
      NoOutput(props, end - at);
    } else {
      WrittenDecodes(props, end - at, buf[next.value..]);
      r := DecodeWritten(buf, at, next.value, EncodeObject(props, end - at).value);
    }
  }

  lemma Joined(props: seq<Prop>, size: nat, more: seq<Prop>, size': nat, rest: Option<DecodedProps>)
    ensures Continue(props, size, Continue(more, size', rest)) == Continue(props + more, size + size', rest)
  {
    assert rest.Some? ==> props + (more + rest.value.props) == props + more + rest.value.props;
  }

  lemma FirstTurn(b: seq<byte>, named: bool)
    ensures DecodeProps(b, named, false) == Continue([], 0, DecodeProps(b, named, false))
  {
    var d := DecodeProps(b, named, false);
    assert d.Some? ==> [] + d.value.props == d.value.props;
  }

  lemma LoopTurn(b: seq<byte>, named: bool, failed: bool)
    requires b != []
    ensures DecodeProps(b, named, failed) ==
      if |b| >= 3 && DecodeInt24(b) == OBJECT_END as int then Some(DecodedProps([], 3))
      else
        var skip := if failed then 1 else 0;
        var d := DecodeProp(b[skip..], named);
        if d.None? then Continue([], skip, DecodeProps(b[skip..], named, true))
        else Continue([d.value.prop], skip + d.value.size, DecodeProps(Drop(b[skip..], d.value.size), named, false))
  {}

  lemma LastTurn(named: bool, failed: bool)
    ensures DecodeProps([], named, failed) == if failed then None else Some(DecodedProps([], 0))
  {}
}
