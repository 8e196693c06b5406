/**
 The forms of one argument, byte by byte: B:, S:, N:, Z: and O: without a name, NB:, NS:, NN: and
 NO: with one (rtmp_stream.c:510-565, librtmp/rtmp.c:500-576).
 */
module AmfArgumentForms {
  import opened Wrappers
  import opened Bytes
  import opened Amf0
  import opened AmfArguments
  import opened AmfArgumentsRoundTrip

  // ----- printing -----

  /** N, B, S, O and Z; an N in front says that a name follows; objects are opened with 1 and closed with O:0. */
  lemma PrintedForm(p: Prop, format: Format)
    requires Encodable(p.value)
    ensures var v := p.value;
      var letter: byte :=
        if v.Number? then 0x4E else if v.Boolean? then 0x42 else if v.Str? then 0x53
        else if v.Object? then 0x4F else 0x5A;
      var head := if p.name == [] then [letter, 0x3A] else [0x4E, letter, 0x3A] + UpToNul(p.name) + [0x3A];
      var text :=
        if v.Number? then format(v.bits) else if v.Boolean? then [if v.b then 0x31 else 0x30]
        else if v.Str? then v.s else if v.Object? then [0x31] else [];
      PropTexts(p, format)
      == [head + text] + if v.Object? then Texts(v.props, format) + [[0x4F, 0x3A, 0x30]] else []
  {
    hide Texts, UpToNul;
  }

  /** Each text goes behind " -C "; argv points at "-C" and at the text. */
  lemma PrintedBytes(text: seq<byte>, rest: seq<seq<byte>>, at: nat)
    ensures Printed([text] + rest) == [0x20, 0x2D, 0x43, 0x20] + text + Printed(rest)
    ensures Slices([text] + rest, at) == [(at + 1, 2), (at + 4, |text|)] + Slices(rest, at + 4 + |text|)
    ensures Printed([]) == [] && Slices([], at) == []
  {
    assert ([text] + rest)[1..] == rest;
  }

  /** A name is printed up to its first zero byte. */
  lemma {:induction false} NamePrinted(name: seq<byte>, rest: seq<byte>)
    requires 0 !in name
    ensures UpToNul(name) == name && UpToNul(name + [0] + rest) == name
  {
    if name == [] {
      assert [] + [0] + rest == [0] + rest;
    } else {
      assert (name + [0] + rest)[1..] == name[1..] + [0] + rest;
      NamePrinted(name[1..], rest);
    }
  }

  // ----- reading -----

  lemma UnnamedForms(st: Reading, text: seq<byte>, parse: Parse)
    ensures ParseArg(st, [0x42, 0x3A] + text, parse) == Add(st, Prop([], Boolean(Atoi(text) != 0)))
    ensures ParseArg(st, [0x53, 0x3A] + text, parse) == Add(st, Prop([], Str(text)))
    ensures ParseArg(st, [0x4E, 0x3A] + text, parse) == Add(st, Prop([], Number(parse(text))))
    ensures ParseArg(st, [0x5A, 0x3A] + text, parse) == Add(st, Prop([], Null))
    ensures ParseArg(st, [0x4F, 0x3A] + text, parse)
            == if Atoi(text) != 0 then Add(st, Prop([], Object([]))) else Some(Reading(st.tree, st.depth - 1))
  {
    hide Add, Atoi;
    assert ([0x42, 0x3A] + text)[2..] == text && ([0x53, 0x3A] + text)[2..] == text;
    assert ([0x4E, 0x3A] + text)[2..] == text && ([0x4F, 0x3A] + text)[2..] == text;
  }

  /** Inside an object the name goes up to the next colon; at depth 0 names are refused. */
  lemma NamedForms(st: Reading, name: seq<byte>, text: seq<byte>, letter: byte, parse: Parse)
    requires 0x3A !in name && letter != 0x3A
    ensures ParseArg(st, [0x4E, letter, 0x3A] + (name + [0x3A] + text), parse)
            == if st.depth == 0 then None
               else if letter == 0x42 then Add(st, Prop(name, Boolean(Atoi(text) != 0)))
               else if letter == 0x53 then Add(st, Prop(name, Str(text)))
               else if letter == 0x4E then Add(st, Prop(name, Number(parse(text))))
               else if letter == 0x4F then Add(st, Prop(name, Object([])))
               else None
  {
    hide Add, Atoi, ColonAt;
    var rest := name + [0x3A] + text;
    var arg := [0x4E, letter, 0x3A] + rest;
    ColonBehind(name, text);
    assert arg[3..] == rest && arg[3..3 + |name|] == name && arg[4 + |name|..] == text;
  }

  /** Everything else is refused. */
  lemma RefusedForms(st: Reading, arg: seq<byte>, parse: Parse)
    requires |arg| >= 2 && arg[1] == 0x3A ==> arg[0] !in {0x42, 0x53, 0x4E, 0x5A, 0x4F}
    requires |arg| >= 3 && arg[1] != 0x3A && arg[2] == 0x3A && arg[0] == 0x4E ==>
      0x3A !in arg[3..] || arg[1] !in {0x42, 0x53, 0x4E, 0x4F}
    ensures ParseArg(st, arg, parse) == None
  {
    if |arg| >= 3 && 0x3A !in arg[3..] {
      NoColon(arg[3..]);
    }
    hide Add, Atoi, ColonAt;
  }

  lemma {:induction false} NoColon(s: seq<byte>)
    requires 0x3A !in s
    ensures ColonAt(s) == |s|
  {
    if s != [] {
      NoColon(s[1..]);
    }
  }
}
