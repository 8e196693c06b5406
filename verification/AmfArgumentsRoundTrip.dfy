/**
 What parseAMF makes of the arguments dumpAMF prints.
 */
module AmfArgumentsRoundTrip {
  import opened Wrappers
  import opened Bytes
  import opened Amf0
  import opened AmfArguments

  /** Names that can be told from the text around them: no colon, no zero byte. */
  predicate PlainNames(props: seq<Prop>)
    decreases props
  {
    props == []
    || (COLON !in props[0].name && 0 !in props[0].name
        && (props[0].value.Object? ==> PlainNames(props[0].value.props)) && PlainNames(props[1..]))
  }

  /** Names are read back only inside an object, and not in front of a null. */
  predicate Readable(props: seq<Prop>, depth: nat)
    decreases props
  {
    props == []
    || ((props[0].name != [] ==> depth > 0 && !props[0].value.Null?)
        && (props[0].value.Object? ==> Readable(props[0].value.props, depth + 1)) && Readable(props[1..], depth))
  }

  /** The value as it is after its numbers were printed and read. */
  function Reread(v: Value, format: Format, parse: Parse): Value
    decreases v, 0
  {
    match v
    case Number(bits) => Number(parse(format(bits)))
    case Object(props) => Object(AllReread(props, format, parse))
    case _ => v
  }

  function AllReread(props: seq<Prop>, format: Format, parse: Parse): seq<Prop>
    decreases props
  {
    if props == [] then []
    else [Prop(props[0].name, Reread(props[0].value, format, parse))] + AllReread(props[1..], format, parse)
  }

  /** Every number of the tree survives being printed and read. */
  predicate AllExactIn(props: seq<Prop>, format: Format, parse: Parse)
    decreases props
  {
    props == []
    || ((props[0].value.Number? ==> parse(format(props[0].value.bits)) == props[0].value.bits)
        && (props[0].value.Object? ==> AllExactIn(props[0].value.props, format, parse))
        && AllExactIn(props[1..], format, parse))
  }

  lemma {:induction false} RereadIsSameIff(props: seq<Prop>, format: Format, parse: Parse)
    ensures AllReread(props, format, parse) == props <==> AllExactIn(props, format, parse)
    decreases props
  {
    if props != [] {
      var all := AllReread(props, format, parse);
      assert all[1..] == AllReread(props[1..], format, parse);
      assert props == [props[0]] + props[1..];
      if props[0].value.Object? {
        RereadIsSameIff(props[0].value.props, format, parse);
      }
      RereadIsSameIff(props[1..], format, parse);
    }
  }

  // ----- one argument -----

  lemma {:induction false} ColonBehind(name: seq<byte>, tail: seq<byte>)
    requires COLON !in name
    ensures ColonAt(name + [COLON] + tail) == |name|
  {
    if name != [] {
      assert (name + [COLON] + tail)[1..] == name[1..] + [COLON] + tail;
      ColonBehind(name[1..], tail);
    }
  }

  lemma {:induction false} NoNul(name: seq<byte>)
    requires 0 !in name
    ensures UpToNul(name) == name
  {
    if name != [] {
      NoNul(name[1..]);
    }
  }

  lemma DigitTexts()
    ensures Atoi([DIGIT_1]) == 1 && Atoi([DIGIT_0]) == 0
  {
    assert Digits([DIGIT_1], 0) == Digits([], 1) && Digits([DIGIT_0], 0) == Digits([], 0);
  }

  /** The property as its first argument has it: objects are still empty. */
  function Opened(p: Prop): Prop {
    if p.value.Object? then p.(value := Object([])) else p
  }

  predicate ReadableHere(p: Prop, depth: int) {
    p.name != [] ==> depth != 0 && !p.value.Null?
  }

  lemma UnnamedParses(st: Reading, v: Value, format: Format, parse: Parse)
    requires !v.Date?
    ensures ParseArg(st, Head(Prop([], v)) + ValueText(v, format), parse)
            == Add(st, Opened(Prop([], Reread(v, format, parse))))
  {
    var text := ValueText(v, format);
    var arg := Head(Prop([], v)) + text;
    assert arg == [Letter(v), COLON] + text && arg[2..] == text;
    DigitTexts();
  }

  lemma NamedParses(st: Reading, p: Prop, format: Format, parse: Parse)
    requires !p.value.Date? && p.name != [] && COLON !in p.name && 0 !in p.name
    ensures ParseArg(st, Head(p) + ValueText(p.value, format), parse)
      == if st.depth == 0 || p.value.Null? then None else Add(st, Opened(p.(value := Reread(p.value, format, parse))))
  {
    var text, k := ValueText(p.value, format), |p.name|;
    var arg := Head(p) + text;
    NoNul(p.name);
    ColonBehind(p.name, text);
    assert arg == [LETTER_N, Letter(p.value), COLON] + (p.name + [COLON] + text);
    assert arg[3..] == p.name + [COLON] + text;
    assert arg[3..3 + k] == p.name && arg[4 + k..] == text;
    DigitTexts();
  }

  lemma ArgParses(st: Reading, p: Prop, format: Format, parse: Parse)
    requires !p.value.Date? && COLON !in p.name && 0 !in p.name
    ensures ParseArg(st, Head(p) + ValueText(p.value, format), parse)
      == if ReadableHere(p, st.depth) then Add(st, Opened(p.(value := Reread(p.value, format, parse)))) else None
  {
    if p.name == [] {
      UnnamedParses(st, p.value, format, parse);
    } else {
      NamedParses(st, p, format, parse);
    }
  }

  lemma CloseParses(st: Reading, parse: Parse)
    ensures ParseArg(st, CLOSE, parse) == Some(st.(depth := st.depth - 1))
  {
    DigitTexts();
    assert CLOSE[2..] == [DIGIT_0];
  }

  // ----- the tree under construction -----

  /** The last properties down to `depth` are objects. */
  predicate OpenAt(tree: seq<Prop>, depth: nat)
    decreases depth
  {
    depth == 0 || (tree != [] && tree[|tree| - 1].value.Object? && OpenAt(tree[|tree| - 1].value.props, depth - 1))
  }

  function Last(tree: seq<Prop>): Prop
    requires tree != []
  {
    tree[|tree| - 1]
  }

  /** `more` added to the object that is open at `depth`. */
  function Extended(tree: seq<Prop>, depth: nat, more: seq<Prop>): seq<Prop>
    requires OpenAt(tree, depth)
    decreases depth
  {
    if depth == 0 then tree + more
    else tree[..|tree| - 1] + [Last(tree).(value := Object(Extended(Last(tree).value.props, depth - 1, more)))]
  }

  lemma {:induction false} ExtendedStaysOpen(tree: seq<Prop>, depth: nat, more: seq<Prop>)
    requires OpenAt(tree, depth)
    ensures OpenAt(Extended(tree, depth, more), depth)
    decreases depth
  {
    if depth > 0 {
      ExtendedStaysOpen(Last(tree).value.props, depth - 1, more);
    }
  }

  lemma {:induction false} AddIsExtended(tree: seq<Prop>, depth: nat, p: Prop)
    requires OpenAt(tree, depth)
    ensures AddAt(tree, depth, p) == Some(Extended(tree, depth, [p]))
    decreases depth
  {
    if depth > 0 {
      AddIsExtended(Last(tree).value.props, depth - 1, p);
    }
  }

  lemma {:induction false} ExtendedTwice(tree: seq<Prop>, depth: nat, a: seq<Prop>, b: seq<Prop>)
    requires OpenAt(tree, depth)
    ensures OpenAt(Extended(tree, depth, a), depth)
    ensures Extended(Extended(tree, depth, a), depth, b) == Extended(tree, depth, a + b)
    decreases depth
  {
    ExtendedStaysOpen(tree, depth, a);
    if depth == 0 {
      assert tree + a + b == tree + (a + b);
    } else {
      ExtendedTwice(Last(tree).value.props, depth - 1, a, b);
      var once := Extended(tree, depth, a);
      assert once[..|once| - 1] == tree[..|tree| - 1];
    }
  }

  /** Filling an object begun empty gives the object with its properties. */
  lemma {:induction false} OpenedFills(tree: seq<Prop>, depth: nat, p: Prop)
    requires OpenAt(tree, depth) && p.value.Object?
    ensures var begun := Extended(tree, depth, [Opened(p)]);
      OpenAt(begun, depth + 1) && Extended(begun, depth + 1, p.value.props) == Extended(tree, depth, [p])
    decreases depth
  {
    var begun := Extended(tree, depth, [Opened(p)]);
    if depth == 0 {
      assert begun[..|begun| - 1] == tree && Last(begun) == Opened(p);
      assert OpenAt(Opened(p).value.props, 0) && [] + p.value.props == p.value.props;
    } else {
      OpenedFills(Last(tree).value.props, depth - 1, p);
      assert begun[..|begun| - 1] == tree[..|tree| - 1];
    }
  }

  lemma {:induction false} ExtendedByNothing(tree: seq<Prop>, depth: nat)
    requires OpenAt(tree, depth)
    ensures Extended(tree, depth, []) == tree
    decreases depth
  {
    if depth > 0 {
      ExtendedByNothing(Last(tree).value.props, depth - 1);
    }
  }

  // ----- whole argument lists -----

  lemma {:induction false} ParseAllJoins(st: Reading, a: seq<seq<byte>>, b: seq<seq<byte>>, parse: Parse)
    ensures ParseAll(st, a + b, parse)
      == match ParseAll(st, a, parse) case None => None case Some(next) => ParseAll(next, b, parse)
    decreases |a|
  {
    if a == [] {
      assert a + b == b;
    } else {
      assert (a + b)[1..] == a[1..] + b;
      if ParseArg(st, a[0], parse).Some? {
        ParseAllJoins(ParseArg(st, a[0], parse).value, a[1..], b, parse);
      }
    }
  }

  predicate ReadableProp(p: Prop, depth: nat) {
    ReadableHere(p, depth) && (p.value.Object? ==> Readable(p.value.props, depth + 1))
  }

  lemma OneParse(st: Reading, arg: seq<byte>, parse: Parse)
    ensures ParseAll(st, [arg], parse) == ParseArg(st, arg, parse)
  {}

  lemma {:induction false} PropRead(st: Reading, p: Prop, format: Format, parse: Parse)
    requires Encodable(p.value) && PlainNames([p]) && st.depth >= 0 && OpenAt(st.tree, st.depth)
    ensures ParseAll(st, PropTexts(p, format), parse)
      == if !ReadableProp(p, st.depth) then None
         else Some(st.(tree := Extended(st.tree, st.depth, [p.(value := Reread(p.value, format, parse))])))
    decreases p.value, 1
  {
    var text := Head(p) + ValueText(p.value, format);
    ArgParses(st, p, format, parse);
    AddIsExtended(st.tree, st.depth, Opened(p.(value := Reread(p.value, format, parse))));
    OneParse(st, text, parse);
    hide ParseArg, ParseAll, Head, ValueText, Extended, OpenAt;
    if p.value.Object? {
      ObjectPropRead(st, p, text, format, parse);
    } else {
      assert PropTexts(p, format) == [text];
    }
  }

  lemma {:induction false} ObjectPropRead(st: Reading, p: Prop, text: seq<byte>, format: Format, parse: Parse)
    requires Encodable(p.value) && PlainNames([p]) && st.depth >= 0 && OpenAt(st.tree, st.depth)
    requires p.value.Object? && text == Head(p) + ValueText(p.value, format)
    requires ParseAll(st, [text], parse)
      == if !ReadableHere(p, st.depth) then None
         else Some(Reading(Extended(st.tree, st.depth, [Opened(p)]), st.depth + 1))
    ensures ParseAll(st, PropTexts(p, format), parse)
      == if !ReadableProp(p, st.depth) then None
         else Some(st.(tree := Extended(st.tree, st.depth, [p.(value := Reread(p.value, format, parse))])))
    decreases p.value, 0
  {
    hide ParseArg, ParseAll, Head, ValueText, Extended, OpenAt;
    var inner := Texts(p.value.props, format);
    assert PropTexts(p, format) == [text] + inner + [CLOSE];
    if ReadableHere(p, st.depth) {
      var next := Reading(Extended(st.tree, st.depth, [Opened(p)]), st.depth + 1);
      OpenedFills(st.tree, st.depth, p.(value := Reread(p.value, format, parse)));
      TextsRead(next, p.value.props, format, parse);
      ObjectRead(st, next, text, inner, parse);
    } else {
      ParseAllJoins(st, [text], inner, parse);
      ParseAllJoins(st, [text] + inner, [CLOSE], parse);
    }
  }

  /** An object's first text, its properties and the closing text. */
  lemma ObjectRead(st: Reading, next: Reading, text: seq<byte>, inner: seq<seq<byte>>, parse: Parse)
    requires ParseAll(st, [text], parse) == Some(next)
    ensures ParseAll(st, [text] + inner + [CLOSE], parse)
      == match ParseAll(next, inner, parse) case None => None case Some(full) => Some(full.(depth := full.depth - 1))
  {
    ParseAllJoins(st, [text], inner, parse);
    ParseAllJoins(st, [text] + inner, [CLOSE], parse);
    if ParseAll(next, inner, parse).Some? {
      var full := ParseAll(next, inner, parse).value;
      CloseParses(full, parse);
      OneParse(full, CLOSE, parse);
    }
  }

  /**
   Reading the printed arguments one by one adds the printed properties, each number as it is after
   being printed and read, and comes back to the same depth, or is refused: it is refused exactly
   when a name is where none can be read.
   */
  lemma {:induction false} TextsRead(st: Reading, props: seq<Prop>, format: Format, parse: Parse)
    requires AllEncodable(props) && PlainNames(props) && st.depth >= 0 && OpenAt(st.tree, st.depth)
    ensures ParseAll(st, Texts(props, format), parse)
      == if !Readable(props, st.depth) then None
         else Some(st.(tree := Extended(st.tree, st.depth, AllReread(props, format, parse))))
    decreases props
  {
    if props == [] {
      ExtendedByNothing(st.tree, st.depth);
    } else {
      var p, rest := props[0], props[1..];
      var q, more := p.(value := Reread(p.value, format, parse)), AllReread(rest, format, parse);
      assert AllReread(props, format, parse) == [q] + more;
      hide ParseAll, PropTexts, Extended, Reread, AllReread;
      PropRead(st, p, format, parse);
      ParseAllJoins(st, PropTexts(p, format), Texts(rest, format), parse);
      if ReadableProp(p, st.depth) {
        var next := st.(tree := Extended(st.tree, st.depth, [q]));
        ExtendedStaysOpen(st.tree, st.depth, [q]);
        TextsRead(next, rest, format, parse);
        ExtendedTwice(st.tree, st.depth, [q], more);
      }
    }
  }

  // ----- names that cannot be read back -----

  lemma {:induction false} NoColonBefore(s: seq<byte>)
    ensures COLON !in s[..ColonAt(s)]
  {
    if s != [] && s[0] != COLON {
      NoColonBefore(s[1..]);
      assert s[..ColonAt(s)] == [s[0]] + s[1..][..ColonAt(s[1..])];
    }
  }

  predicate PlainProp(p: Prop) {
    COLON !in p.name && 0 !in p.name && (p.value.Object? ==> PlainNames(p.value.props))
  }

  lemma {:induction false} PlainJoins(a: seq<Prop>, p: Prop)
    ensures PlainNames(a + [p]) <==> PlainNames(a) && PlainProp(p)
  {
    if a == [] {
      assert [] + [p] == [p] && [p][1..] == [];
    } else {
      assert (a + [p])[1..] == a[1..] + [p];
      PlainJoins(a[1..], p);
    }
  }

  lemma {:induction false} AddAtKeepsPlain(tree: seq<Prop>, depth: nat, p: Prop)
    requires PlainNames(tree) && PlainProp(p)
    ensures AddAt(tree, depth, p).Some? ==> PlainNames(AddAt(tree, depth, p).value)
    decreases depth
  {
    if depth == 0 {
      PlainJoins(tree, p);
    } else if AddAt(tree, depth, p).Some? {
      var front, last := tree[..|tree| - 1], Last(tree);
      assert tree == front + [last];
      PlainJoins(front, last);
      AddAtKeepsPlain(last.value.props, depth - 1, p);
      PlainJoins(front, Prop(last.name, Object(AddAt(last.value.props, depth - 1, p).value)));
    }
  }

  /** The name an argument would be read with has no zero byte. */
  predicate PlainArg(arg: seq<byte>) {
    |arg| >= 3 && arg[1] != COLON ==> 0 !in arg[3..3 + ColonAt(arg[3..])]
  }

  lemma ParseArgKeepsPlain(st: Reading, arg: seq<byte>, parse: Parse)
    requires PlainNames(st.tree) && PlainArg(arg) && ParseArg(st, arg, parse).Some?
    ensures PlainNames(ParseArg(st, arg, parse).value.tree)
  {
    if |arg| >= 3 && arg[1] != COLON {
      NoColonBefore(arg[3..]);
      assert arg[3..][..ColonAt(arg[3..])] == arg[3..3 + ColonAt(arg[3..])];
    }
    hide ColonAt, Add, PlainNames, Atoi;
    forall p: Prop | COLON !in p.name && 0 !in p.name && (p.value.Object? ==> p.value.props == [])
      ensures Add(st, p).Some? ==> PlainNames(Add(st, p).value.tree)
    {
      AddKeepsPlain(st, p);
    }
  }

  lemma AddKeepsPlain(st: Reading, p: Prop)
    requires PlainNames(st.tree) && COLON !in p.name && 0 !in p.name && (p.value.Object? ==> p.value.props == [])
    ensures Add(st, p).Some? ==> PlainNames(Add(st, p).value.tree)
  {
    NothingIsPlain();
    hide PlainNames, AddAt;
    AddAtKeepsPlain(st.tree, if st.depth > 0 then st.depth else 0, p);
  }

  lemma NothingIsPlain()
    ensures PlainNames([])
  {}

  lemma {:induction false} ParseAllKeepsPlain(st: Reading, args: seq<seq<byte>>, parse: Parse)
    requires PlainNames(st.tree) && ParseAll(st, args, parse).Some?
    requires forall arg | arg in args :: PlainArg(arg)
    ensures PlainNames(ParseAll(st, args, parse).value.tree)
    decreases |args|
  {
    hide ParseArg, PlainNames, PlainArg;
    if args != [] {
      ParseArgKeepsPlain(st, args[0], parse);
      ParseAllKeepsPlain(ParseArg(st, args[0], parse).value, args[1..], parse);
    }
  }

  lemma {:induction false} UpToNulHasNone(s: seq<byte>)
    ensures 0 !in UpToNul(s)
  {
    if s != [] && s[0] != 0 {
      UpToNulHasNone(s[1..]);
    }
  }

  lemma {:induction false} ColonWithin(s: seq<byte>, tail: seq<byte>)
    ensures ColonAt(s + [COLON] + tail) <= |s|
  {
    var all := s + [COLON] + tail;
    if s != [] {
      assert all[1..] == s[1..] + [COLON] + tail;
      ColonWithin(s[1..], tail);
    }
  }

  lemma PropArgIsPlain(p: Prop, text: seq<byte>)
    requires !p.value.Date?
    ensures PlainArg(Head(p) + text)
  {
    if p.name != [] {
      var name := UpToNul(p.name);
      var arg := Head(p) + text;
      assert arg == [LETTER_N, Letter(p.value), COLON] + (name + [COLON] + text);
      assert arg[3..] == name + [COLON] + text;
      UpToNulHasNone(p.name);
      ColonWithin(name, text);
      assert forall i | 0 <= i < ColonAt(arg[3..]) :: arg[3 + i] == name[i];
    }
  }

  lemma {:induction false} TextsArePlain(props: seq<Prop>, format: Format)
    requires AllEncodable(props)
    ensures forall arg | arg in Texts(props, format) :: PlainArg(arg)
    decreases props
  {
    if props != [] {
      var p := props[0];
      PropArgIsPlain(p, ValueText(p.value, format));
      TextsArePlain(props[1..], format);
      if p.value.Object? {
        TextsArePlain(p.value.props, format);
      }
      assert PlainArg(CLOSE);
      hide PlainArg, Head, ValueText;
    }
  }

  /**
   Printing and reading back gives the tree if and only if every name stands inside an object, not
   on a null, and has neither a colon nor a zero byte, and every number survives being printed.
   */
  lemma DumpParseRoundTripIff(props: seq<Prop>, format: Format, parse: Parse)
    requires AllEncodable(props)
    ensures ParseAll(Reading([], 0), Texts(props, format), parse) == Some(Reading(props, 0))
            <==> Readable(props, 0) && PlainNames(props) && AllExactIn(props, format, parse)
  {
    var start := Reading([], 0);
    if PlainNames(props) {
      TextsRead(start, props, format, parse);
      RereadIsSameIff(props, format, parse);
      assert [] + AllReread(props, format, parse) == AllReread(props, format, parse);
    } else {
      TextsArePlain(props, format);
      if ParseAll(start, Texts(props, format), parse).Some? {
        ParseAllKeepsPlain(start, Texts(props, format), parse);
      }
    }
  }

  /** With a colon in its name, a property comes back under another name and with another value. */
  lemma ColonNameIsCut(format: Format, parse: Parse)
    ensures var p := Prop([0x61, COLON, 0x62], Boolean(true));
      var st := Reading([Prop([], Object([]))], 1);
      ParseArg(st, Head(p) + ValueText(p.value, format), parse)
      == Some(Reading([Prop([], Object([Prop([0x61], Boolean(false))]))], 1))
  {
    var p := Prop([0x61, COLON, 0x62], Boolean(true));
    NoNul(p.name);
    assert Head(p) + ValueText(p.value, format) == COLON_ARG;
    hide Head, ValueText;
    ColonArgParses(Reading([Prop([], Object([]))], 1), parse);
    AddedInside(Prop([0x61], Boolean(false)));
  }

  // "NB:a:b:1"
  const COLON_ARG: seq<byte> := [LETTER_N, LETTER_B, COLON, 0x61, COLON, 0x62, COLON, DIGIT_1]

  lemma ColonArgParses(st: Reading, parse: Parse)
    requires st.depth != 0
    ensures ParseArg(st, COLON_ARG, parse) == Add(st, Prop([0x61], Boolean(false)))
  {
    var tail: seq<byte> := [0x62, COLON, DIGIT_1];
    ColonBehind([0x61], tail);
    assert COLON_ARG[3..] == [0x61] + [COLON] + tail;
    assert COLON_ARG[3..4] == [0x61] && COLON_ARG[5..] == tail;
    hide Add, ColonAt;
    assert Atoi(tail) == Digits(tail, 0) == 0;
  }

  lemma AddedInside(q: Prop)
    requires !q.value.Object?
    ensures Add(Reading([Prop([], Object([]))], 1), q) == Some(Reading([Prop([], Object([q]))], 1))
  {
    var none: seq<Prop> := [];
    var last := Prop([], Object([q]));
    assert none + [q] == [q] && none + [last] == [last];
    assert AddAt(none, 0, q) == Some([q]);
  }
}
