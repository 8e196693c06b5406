/**
 AMF objects as command-line arguments: countAMF and dumpAMF print them (rtmp_stream.c:472-565),
 parseAMF reads one argument at a time (librtmp/rtmp.c:500-591).
 */
module AmfArguments {
  import opened Wrappers
  import opened Bytes
  import opened Memory
  import opened Amf0

  const COLON: byte := 0x3A
  const LETTER_N: byte := 0x4E
  const LETTER_B: byte := 0x42
  const LETTER_S: byte := 0x53
  const LETTER_O: byte := 0x4F
  const LETTER_Z: byte := 0x5A
  const DIGIT_0: byte := 0x30
  const DIGIT_1: byte := 0x31

  // " -C " and "O:0"
  const OPTION: seq<byte> := [0x20, 0x2D, 0x43, 0x20]
  const CLOSE: seq<byte> := [LETTER_O, COLON, DIGIT_0]

  // How numbers are written ("%f") and read (strtod).
  type Format = Double -> seq<byte>
  type Parse = seq<byte> -> Double

  // ----- printing -----

  /** A name as "%.*s" prints it: a zero byte ends it. */
  function UpToNul(s: seq<byte>): (t: seq<byte>)
    ensures |t| <= |s|
  {
    if s == [] || s[0] == 0 then [] else [s[0]] + UpToNul(s[1..])
  }

  function Letter(v: Value): byte
    requires !v.Date?
  {
    match v
    case Number(_) => LETTER_N
    case Boolean(_) => LETTER_B
    case Str(_) => LETTER_S
    case Object(_) => LETTER_O
    case Null => LETTER_Z
  }

  function Head(p: Prop): seq<byte>
    requires !p.value.Date?
  {
    if p.name == [] then [Letter(p.value), COLON] else [LETTER_N, Letter(p.value), COLON] + UpToNul(p.name) + [COLON]
  }

  function ValueText(v: Value, format: Format): seq<byte> {
    match v
    case Number(bits) => format(bits)
    case Boolean(b) => [if b then DIGIT_1 else DIGIT_0]
    case Str(s) => s
    case Object(_) => [DIGIT_1]
    case _ => []
  }

  /** The arguments that follow the "-C"s, for one property. */
  function PropTexts(p: Prop, format: Format): seq<seq<byte>>
    requires Encodable(p.value)
    decreases p.value, 1
  {
    [Head(p) + ValueText(p.value, format)] + if p.value.Object? then Texts(p.value.props, format) + [CLOSE] else []
  }

  function Texts(props: seq<Prop>, format: Format): seq<seq<byte>>
    requires AllEncodable(props)
    decreases props
  {
    if props == [] then [] else PropTexts(props[0], format) + Texts(props[1..], format)
  }

  function Printed(texts: seq<seq<byte>>): seq<byte> {
    if texts == [] then [] else OPTION + texts[0] + Printed(texts[1..])
  }

  /** Where argv points: each text and the "-C" before it, as offset and length. */
  function Slices(texts: seq<seq<byte>>, at: nat): seq<(nat, nat)> {
    if texts == [] then [] else [(at + 1, 2), (at + 4, |texts[0]|)] + Slices(texts[1..], at + 4 + |texts[0]|)
  }

  /** countAMF's length. */
  function Budget(props: seq<Prop>): nat
    decreases props
  {
    if props == [] then 0
    else
      var p := props[0];
      4 + (if p.name != [] then 1 else 0) + 2 + (if p.name != [] then |p.name| + 1 else 0)
      + (match p.value
         case Boolean(_) => 1
         case Str(s) => |s|
         case Number(_) => 40
         case Object(inner) => 9 + Budget(inner)
         case _ => 0)
      + Budget(props[1..])
  }

  // ----- reading -----

  function Digits(s: seq<byte>, value: nat): nat {
    if s == [] || !(0x30 <= s[0] <= 0x39) then value else Digits(s[1..], 10 * value + (s[0] - 0x30))
  }

  /** `atoi`, for numbers within the range of an `int`. */
  function Atoi(s: seq<byte>): int {
    if s == [] then 0
    else if s[0] == 0x20 || 9 <= s[0] <= 13 then Atoi(s[1..])
    else if s[0] == 0x2D then -(Digits(s[1..], 0) as int)
    else if s[0] == 0x2B then Digits(s[1..], 0)
    else Digits(s, 0)
  }

  /** A number as decimal digits. */
  function Decimal(n: nat): (s: seq<byte>)
    ensures s != [] && 0x30 <= s[0] <= 0x39
  {
    if n < 10 then [0x30 + n] else Decimal(n / 10) + [0x30 + n % 10]
  }

  predicate IsDigit(b: byte) {
    b == 0x30 || b == 0x31 || b == 0x32 || b == 0x33 || b == 0x34
    || b == 0x35 || b == 0x36 || b == 0x37 || b == 0x38 || b == 0x39
  }

  lemma {:induction false} DigitsRead(n: nat, rest: seq<byte>)
    requires rest == [] || !IsDigit(rest[0])
    ensures Digits(Decimal(n) + rest, 0) == n
    decreases n
  {
    DigitsFrom(n, rest);
    assert rest == [] || Digits(rest, n) == n;
  }

  /** The digits of `n` in front leave `n` as the number read so far. */
  lemma {:induction false} DigitsFrom(n: nat, rest: seq<byte>)
    ensures Digits(Decimal(n) + rest, 0) == Digits(rest, n)
    decreases n
  {
    if n < 10 {
      assert ([0x30 + n] + rest)[1..] == rest;
    } else {
      var last: byte := 0x30 + n % 10;
      DigitsFrom(n / 10, [last] + rest);
      assert Decimal(n) + rest == Decimal(n / 10) + ([last] + rest);
      assert ([last] + rest)[1..] == rest;
    }
  }

  /** `atoi` reads decimal numbers with a sign or without, behind white space and up to what is no digit. */
  lemma AtoiReads(n: nat, rest: seq<byte>)
    requires rest == [] || !IsDigit(rest[0])
    ensures Atoi(Decimal(n) + rest) == n
    ensures Atoi([0x2B] + (Decimal(n) + rest)) == n
    ensures Atoi([0x2D] + (Decimal(n) + rest)) == -(n as int)
  {
    DigitsRead(n, rest);
    var s := Decimal(n) + rest;
    assert ([0x2B] + s)[1..] == s && ([0x2D] + s)[1..] == s && 0x30 <= s[0] <= 0x39;
    hide Decimal, Digits;
  }

  lemma AtoiSkips(c: byte, s: seq<byte>)
    ensures c == 0x20 || c == 9 || c == 10 || c == 11 || c == 12 || c == 13 ==> Atoi([c] + s) == Atoi(s)
    ensures c !in {0x20, 9, 10, 11, 12, 13, 0x2B, 0x2D} && !IsDigit(c) ==> Atoi([c] + s) == 0
    ensures Atoi([]) == 0
  {
    assert ([c] + s)[1..] == s;
  }

  /** The object being filled and the nesting depth (`edepth`). */
  datatype Reading = Reading(tree: seq<Prop>, depth: int)

  /** AMF_AddProp on the object at the end of `depth` last properties; None when one of them is no object. */
  function AddAt(tree: seq<Prop>, depth: nat, p: Prop): Option<seq<Prop>>
    decreases depth
  {
    if depth == 0 then Some(tree + [p])
    else if tree == [] || !tree[|tree| - 1].value.Object? then None
    else
      var last := tree[|tree| - 1];
      match AddAt(last.value.props, depth - 1, p)
      case None => None
      case Some(inner) => Some(tree[..|tree| - 1] + [Prop(last.name, Object(inner))])
  }

  function Add(st: Reading, p: Prop): Option<Reading> {
    match AddAt(st.tree, if st.depth > 0 then st.depth else 0, p)
    case None => None
    case Some(tree) => Some(Reading(tree, if p.value.Object? then st.depth + 1 else st.depth))
  }

  /** The index of the first colon, or the length. */
  function ColonAt(s: seq<byte>): (k: nat)
    ensures k <= |s|
  {
    if s == [] || s[0] == COLON then 0 else 1 + ColonAt(s[1..])
  }

  /** parseAMF on one argument; None when it is refused. */
  function ParseArg(st: Reading, arg: seq<byte>, parse: Parse): Option<Reading> {
    if |arg| >= 2 && arg[1] == COLON then
      var text := arg[2..];
      if arg[0] == LETTER_B then Add(st, Prop([], Boolean(Atoi(text) != 0)))
      else if arg[0] == LETTER_S then Add(st, Prop([], Str(text)))
      else if arg[0] == LETTER_N then Add(st, Prop([], Number(parse(text))))
      else if arg[0] == LETTER_Z then Add(st, Prop([], Null))
      else if arg[0] == LETTER_O then
        if Atoi(text) != 0 then Add(st, Prop([], Object([]))) else Some(st.(depth := st.depth - 1))
      else None
    else if |arg| >= 3 && arg[2] == COLON && arg[0] == LETTER_N then
      var k := ColonAt(arg[3..]);
      if k == |arg| - 3 || st.depth == 0 then None
      else
        var name, text := arg[3..3 + k], arg[4 + k..];
        if arg[1] == LETTER_B then Add(st, Prop(name, Boolean(Atoi(text) != 0)))
        else if arg[1] == LETTER_S then Add(st, Prop(name, Str(text)))
        else if arg[1] == LETTER_N then Add(st, Prop(name, Number(parse(text))))
        else if arg[1] == LETTER_O then Add(st, Prop(name, Object([])))
        else None
    else None
  }

  /** One argument after the other. */
  function ParseAll(st: Reading, args: seq<seq<byte>>, parse: Parse): Option<Reading>
    decreases |args|
  {
    if args == [] then Some(st)
    else
      match ParseArg(st, args[0], parse)
      case None => None
      case Some(next) => ParseAll(next, args[1..], parse)
  }

  // ----- the printing loops -----

  /** How many texts are printed. */
  function TextCount(props: seq<Prop>): nat
    decreases props
  {
    if props == [] then 0
    else 1 + (if props[0].value.Object? then TextCount(props[0].value.props) + 1 else 0) + TextCount(props[1..])
  }

  /** countAMF: the length, and `argc` counted on. */
  method CountAmf(props: seq<Prop>, argc: nat) returns (len: nat, argc': nat)
    ensures len == Budget(props) && argc' == argc + 2 * TextCount(props)
    decreases props
  {
    len, argc' := 0, argc;
    for i := 0 to |props|
      invariant len + Budget(props[i..]) == Budget(props)
      invariant argc' + 2 * TextCount(props[i..]) == argc + 2 * TextCount(props)
    {
      var p := props[i];
      len, argc' := len + 4, argc' + 2;
      if p.name != [] {
        len := len + 1;
      }
      len := len + 2;
      if p.name != [] {
        len := len + |p.name| + 1;
      }
      match p.value {
        case Boolean(_) =>
          len := len + 1;
        case Str(s) =>
          len := len + |s|;
        case Number(_) =>
          len := len + 40;
        case Object(inner) =>
          len := len + 9;
          var n;
          n, argc' := CountAmf(inner, argc');
          len, argc' := len + n, argc' + 2;
        case _ =>
      }
      assert props[i..][1..] == props[i + 1..];
    }
  }

  class Printer {
    var buf: array<byte>
    var ptr: nat
    var argv: seq<(nat, nat)>
    const format: Format

    constructor (buf: array<byte>, format: Format)
      ensures this.buf == buf && ptr == 0 && argv == [] && this.format == format
    {
      this.buf, ptr, argv, this.format := buf, 0, [], format;
    }

    /** One "-C" and its text. */
    method Emit(text: seq<byte>)
      requires ptr + |Printed([text])| <= buf.Length
      modifies this`ptr, this`argv, buf
      ensures ptr == old(ptr) + |Printed([text])| <= buf.Length && buf[..ptr] == old(buf[..ptr]) + Printed([text])
      ensures argv == old(argv) + Slices([text], old(ptr))
    {
      assert Printed([text]) == OPTION + text && Slices([text], ptr) == [(ptr + 1, 2), (ptr + 4, |text|)];
      StoreBehind(buf, ptr, OPTION + text);
      argv := argv + [(ptr + 1, 2)];
      argv := argv + [(ptr + 4, |text|)];
      ptr := ptr + |OPTION + text|;
    }

    /** An object: its own text, its properties, and "O:0". */
    method DumpObject(text: seq<byte>, props: seq<Prop>, ghost texts: seq<seq<byte>>)
      requires AllEncodable(props) && texts == [text] + Texts(props, format) + [CLOSE]
      requires ptr + |Printed(texts)| <= buf.Length
      modifies this`ptr, this`argv, buf
      ensures ptr == old(ptr) + |Printed(texts)| <= buf.Length && buf[..ptr] == old(buf[..ptr]) + Printed(texts)
      ensures argv == old(argv) + Slices(texts, old(ptr))
      decreases props, 1
    {
      hide *;
      ghost var front, slots, start := buf[..ptr], argv, ptr;
      WriteJoins(front, slots, start, [text], Texts(props, format));
      WriteJoins(front, slots, start, [text] + Texts(props, format), [CLOSE]);
      Emit(text);
      DumpAmf(props);
      Emit(CLOSE);
    }

    /** One turn of dumpAMF's loop. */
    method DumpProp(p: Prop)
      requires Encodable(p.value) && ptr + |Printed(PropTexts(p, format))| <= buf.Length
      modifies this`ptr, this`argv, buf
      ensures ptr == old(ptr) + |Printed(PropTexts(p, format))| <= buf.Length
      ensures buf[..ptr] == old(buf[..ptr]) + Printed(PropTexts(p, format))
      ensures argv == old(argv) + Slices(PropTexts(p, format), old(ptr))
      decreases p.value, 2
    {
      hide Head, ValueText, Printed, Slices, Texts;
      var text := Head(p) + ValueText(p.value, format);
      if p.value.Object? {
        assert PropTexts(p, format) == [text] + Texts(p.value.props, format) + [CLOSE];
        DumpObject(text, p.value.props, PropTexts(p, format));
      } else {
        assert PropTexts(p, format) == [text];
        Emit(text);
      }
    }

    /** dumpAMF. */
    method DumpAmf(props: seq<Prop>)
      requires AllEncodable(props) && ptr + |Printed(Texts(props, format))| <= buf.Length
      modifies this`ptr, this`argv, buf
      ensures ptr == old(ptr) + |Printed(Texts(props, format))| <= buf.Length
      ensures buf[..ptr] == old(buf[..ptr]) + Printed(Texts(props, format))
      ensures argv == old(argv) + Slices(Texts(props, format), old(ptr))
      decreases props, 0
    {
      hide PropTexts, Printed, Slices;
      ghost var all, done: seq<seq<byte>> := Texts(props, format), [];
      ghost var front, slots, start := buf[..ptr], argv, ptr;
      NothingWritten(start);
      for i := 0 to |props|
        invariant AllEncodable(props[i..]) && all == done + Texts(props[i..], format)
        invariant ptr == start + |Printed(done)| <= buf.Length && start + |Printed(all)| <= buf.Length
        invariant buf[..ptr] == front + Printed(done) && argv == slots + Slices(done, start)
      {
        var p := props[i];
        ghost var now, later := PropTexts(p, format), Texts(props[i + 1..], format);
        assert props[i..][1..] == props[i + 1..];
        assert done + (now + later) == done + now + later;
        WriteJoins(front, slots, start, done, now);
        WriteJoins(front, slots, start, done + now, later);
        DumpProp(p);
        done := done + now;
      }
      assert all == done;
    }
  }

  lemma NothingWritten(at: nat)
    ensures Printed([]) == [] && Slices([], at) == []
  {}

  lemma {:induction false} PrintedJoins(a: seq<seq<byte>>, b: seq<seq<byte>>)
    ensures Printed(a + b) == Printed(a) + Printed(b)
  {
    if a == [] {
      assert a + b == b;
    } else {
      assert (a + b)[1..] == a[1..] + b;
      PrintedJoins(a[1..], b);
    }
  }

  lemma {:induction false} SlicesJoin(a: seq<seq<byte>>, b: seq<seq<byte>>, at: nat)
    ensures Slices(a + b, at) == Slices(a, at) + Slices(b, at + |Printed(a)|)
  {
    if a == [] {
      assert a + b == b;
    } else {
      assert (a + b)[1..] == a[1..] + b;
      SlicesJoin(a[1..], b, at + 4 + |a[0]|);
    }
  }

  /** Two writes, one behind the other, are one. */
  lemma WriteJoins(front: seq<byte>, slots: seq<(nat, nat)>, at: nat, a: seq<seq<byte>>, b: seq<seq<byte>>)
    ensures |Printed(a + b)| == |Printed(a)| + |Printed(b)|
    ensures front + Printed(a) + Printed(b) == front + Printed(a + b)
    ensures slots + Slices(a, at) + Slices(b, at + |Printed(a)|) == slots + Slices(a + b, at)
  {
    PrintedJoins(a, b);
    SlicesJoin(a, b, at);
  }

  // ----- the budget -----

  /** Every number of the tree prints in at most the 40 characters counted for it. */
  predicate AllShort(props: seq<Prop>, format: Format)
    decreases props
  {
    props == []
    || ((props[0].value.Number? ==> |format(props[0].value.bits)| <= 40)
        && (props[0].value.Object? ==> AllShort(props[0].value.props, format)) && AllShort(props[1..], format))
  }

  /** dumpAMF stays within what countAMF predicted: as many argument slots, and no more bytes. */
  lemma {:induction false} WithinBudget(props: seq<Prop>, format: Format)
    requires AllEncodable(props) && AllShort(props, format)
    ensures |Printed(Texts(props, format))| <= Budget(props)
    ensures |Slices(Texts(props, format), 0)| == 2 * TextCount(props)
    decreases props
  {
    SlotCount(Texts(props, format), 0);
    if props != [] {
      var p := props[0];
      var first, rest := PropTexts(p, format), Texts(props[1..], format);
      PrintedJoins(first, rest);
      WithinBudget(props[1..], format);
      SlotCount(rest, 0);
      var text := Head(p) + ValueText(p.value, format);
      if p.value.Object? {
        var inner := Texts(p.value.props, format);
        PrintedJoins([text], inner + [CLOSE]);
        PrintedJoins(inner, [CLOSE]);
        WithinBudget(p.value.props, format);
        SlotCount(inner, 0);
      }
    }
  }

  /** What the budget has to spare: 40 characters are counted for a number, and an object's two texts need 8 of 9. */
  function Spare(props: seq<Prop>, format: Format): int
    decreases props
  {
    if props == [] then 0
    else
      var p := props[0];
      (|p.name| - |UpToNul(p.name)|)
      + (if p.value.Number? then 40 - |format(p.value.bits)|
         else if p.value.Object? then 1 + Spare(p.value.props, format)
         else 0)
      + Spare(props[1..], format)
  }

  /** For every tree and format, the budget is what is printed and what it has to spare. */
  lemma {:induction false} BudgetIs(props: seq<Prop>, format: Format)
    requires AllEncodable(props)
    ensures Budget(props) == |Printed(Texts(props, format))| + Spare(props, format)
    decreases props
  {
    if props != [] {
      var p := props[0];
      var first, rest := PropTexts(p, format), Texts(props[1..], format);
      PrintedJoins(first, rest);
      BudgetIs(props[1..], format);
      var text := Head(p) + ValueText(p.value, format);
      if p.value.Object? {
        var inner := Texts(p.value.props, format);
        PrintedJoins([text], inner + [CLOSE]);
        PrintedJoins(inner, [CLOSE]);
        BudgetIs(p.value.props, format);
      }
    }
  }

  lemma {:induction false} SlotCount(texts: seq<seq<byte>>, at: nat)
    ensures |Slices(texts, at)| == 2 * |texts|
  {
    if texts != [] {
      SlotCount(texts[1..], at + 4 + |texts[0]|);
    }
  }

  /** The text an argv entry points to. */
  function TextAt(buf: seq<byte>, slot: (nat, nat)): seq<byte>
    requires slot.0 + slot.1 <= |buf|
  {
    buf[slot.0..slot.0 + slot.1]
  }

  /** The argument list read through argv: "-C" and a text, in turn. */
  lemma {:induction false} SlotsHoldTexts(front: seq<byte>, texts: seq<seq<byte>>, k: nat)
    requires k < |texts|
    ensures var slots, buf := Slices(texts, |front|), front + Printed(texts);
      && |slots| == 2 * |texts|
      && slots[2 * k].0 + slots[2 * k].1 <= |buf| && slots[2 * k + 1].0 + slots[2 * k + 1].1 <= |buf|
      && TextAt(buf, slots[2 * k]) == [0x2D, 0x43] && TextAt(buf, slots[2 * k + 1]) == texts[k]
    decreases k
  {
    var text, rest := texts[0], texts[1..];
    SlotCount(texts, |front|);
    var next := front + OPTION + text;
    assert front + Printed(texts) == next + Printed(rest);
    if k == 0 {
      FirstSlots(front, text, Printed(rest));
    } else {
      SlotsHoldTexts(next, rest, k - 1);
      hide Printed, TextAt;
      assert Slices(texts, |front|)[2..] == Slices(rest, |next|);
    }
  }

  lemma FirstSlots(front: seq<byte>, text: seq<byte>, tail: seq<byte>)
    ensures var buf, at := front + OPTION + text + tail, |front|;
      TextAt(buf, (at + 1, 2)) == [0x2D, 0x43] && TextAt(buf, (at + 4, |text|)) == text
  {
    var buf, at := front + OPTION + text + tail, |front|;
    assert buf[at + 1..at + 3] == OPTION[1..3];
  }
}
