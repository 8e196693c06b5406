/**
 The block decryption of DecodeTEA (librtmp/rtmp.c:3731-3747), on words that are already unpacked.
 */
module Tea {
  import opened Bytes

  type word = bv32

  const DELTA: uint32 := 0x9e3779b9

  /** `sum` when `r` rounds are still to go. */
  function Sum(r: nat): uint32 {
    Wrap(r * DELTA)
  }

  /** The mixing term: bit operations and wrapping additions of 32-bit words. */
  function Mix(y: bv32, z: bv32, sum: bv32, key: bv32): bv32 {
    (((z >> 5) ^ (y << 2)) + ((y >> 3) ^ (z << 4))) ^ ((sum ^ y) + (key ^ z))
  }

  function KeyIndex(p: nat, sum: uint32): nat {
    ((p % 4) as bv2 ^ (sum / 4 % 4) as bv2) as nat
  }

  /** The mixing term of word `p`, between its right neighbour `y` and its left neighbour `z`. */
  function Mx(y: word, z: word, sum: uint32, p: nat, k: seq<word>): word
    requires |k| == 4
  {
    Mix(y, z, sum as bv32, k[KeyIndex(p, sum)])
  }

  function Left(n: nat, p: nat): (q: nat)
    requires p < n
    ensures q < n && (n > 1 ==> q != p)
  {
    if p == 0 then n - 1 else p - 1
  }

  function Right(n: nat, p: nat): (q: nat)
    requires p < n
    ensures q < n && (n > 1 ==> q != p)
  {
    if p == n - 1 then 0 else p + 1
  }

  function Plus(x: word, m: word): word {
    x + m
  }

  function Minus(x: word, m: word): word {
    x - m
  }

  /** One word less its mixing term. */
  function Step(v: seq<word>, p: nat, sum: uint32, k: seq<word>): (w: seq<word>)
    requires p < |v| && |k| == 4
    ensures |w| == |v|
  {
    v[p := Minus(v[p], Mx(v[Right(|v|, p)], v[Left(|v|, p)], sum, p, k))]
  }

  /** One word with its mixing term added back. */
  function Unstep(v: seq<word>, p: nat, sum: uint32, k: seq<word>): (w: seq<word>)
    requires p < |v| && |k| == 4
    ensures |w| == |v|
  {
    v[p := Plus(v[p], Mx(v[Right(|v|, p)], v[Left(|v|, p)], sum, p, k))]
  }

  /** The words from `p` down to the first, one after the other. */
  function Steps(v: seq<word>, p: nat, sum: uint32, k: seq<word>): (w: seq<word>)
    requires p < |v| && |k| == 4
    ensures |w| == |v|
    decreases p
  {
    if p == 0 then Step(v, 0, sum, k) else Steps(Step(v, p, sum, k), p - 1, sum, k)
  }

  function Unsteps(v: seq<word>, p: nat, sum: uint32, k: seq<word>): (w: seq<word>)
    requires p < |v| && |k| == 4
    ensures |w| == |v|
    decreases p
  {
    Unstep(if p == 0 then v else Unsteps(v, p - 1, sum, k), p, sum, k)
  }

  /** The last `r` rounds. */
  function Decoded(v: seq<word>, r: nat, k: seq<word>): (w: seq<word>)
    requires |v| > 0 && |k| == 4
    ensures |w| == |v|
    decreases r
  {
    if r == 0 then v else Decoded(Steps(v, |v| - 1, Sum(r), k), r - 1, k)
  }

  function Encoded(v: seq<word>, r: nat, k: seq<word>): (w: seq<word>)
    requires |v| > 0 && |k| == 4
    ensures |w| == |v|
    decreases r
  {
    if r == 0 then v else Unsteps(Encoded(v, r - 1, k), |v| - 1, Sum(r), k)
  }

  function Rounds(n: nat): (q: nat)
    requires n > 0
    ensures 6 <= q <= 58
  {
    6 + 52 / n
  }

  // ----- a sample block -----

  const KEY: seq<word> := [0x01234567, 0x89abcdef, 0xfedcba98, 0x76543210]

  /** The mixing term on bits alone. */
  lemma MixSamples()
    ensures Mix(0x11111111, 0x2468ace0, 0x3c6ef372, 0xfedcba98) == 0x823c159e
    ensures Mix(0x1880c952, 0x11111111, 0x3c6ef372, 0x89abcdef) == 0xc925a2e4
    ensures Mix(0x5b4309fc, 0x1880c952, 0x3c6ef372, 0x01234567) == 0x71fc931a
    ensures Mix(0x9f147df7, 0x5b4309fc, 0x9e3779b9, 0x01234567) == 0x7ddd50f8
    ensures Mix(0x9aa3785a, 0x9f147df7, 0x9e3779b9, 0x76543210) == 0xbd5ca2c8
    ensures Mix(0x9de66734, 0x9aa3785a, 0x9e3779b9, 0xfedcba98) == 0x44873117
  {}

  lemma KeySamples()
    ensures KeyIndex(2, 0x3c6ef372) == 2 && KeyIndex(1, 0x3c6ef372) == 1 && KeyIndex(0, 0x3c6ef372) == 0
    ensures KeyIndex(2, 0x9e3779b9) == 0 && KeyIndex(1, 0x9e3779b9) == 3 && KeyIndex(0, 0x9e3779b9) == 2
  {}

  lemma SumSamples()
    ensures (0x3c6ef372 as uint32) as bv32 == 0x3c6ef372 && (0x9e3779b9 as uint32) as bv32 == 0x9e3779b9
  {}

  /** One step, with the sum as a word, the key word `key` that is mixed in, and the new word `w`. */
  lemma SampleStep(a: word, b: word, c: word, p: nat, sum: uint32, s: word, key: word, w: word)
    requires p < 3 && sum as bv32 == s && KEY[KeyIndex(p, sum)] == key
    requires p == 0 ==> w == Minus(a, Mix(b, c, s, key))
    requires p == 1 ==> w == Minus(b, Mix(c, a, s, key))
    requires p == 2 ==> w == Minus(c, Mix(a, b, s, key))
    ensures Step([a, b, c], p, sum, KEY)
            == if p == 0 then [w, b, c] else if p == 1 then [a, w, c] else [a, b, w]
  {
    hide KeyIndex, Mix, Minus;
  }

  lemma RoundOfThree(v: seq<word>, sum: uint32)
    requires |v| == 3
    ensures Steps(v, 2, sum, KEY) == Step(Step(Step(v, 2, sum, KEY), 1, sum, KEY), 0, sum, KEY)
  {
    hide Step;
  }

  lemma FirstSample()
    ensures Steps([0x11111111, 0x2468ace0, 0x9abcdef0], 2, 0x3c6ef372, KEY) == [0x9f147df7, 0x5b4309fc, 0x1880c952]
  {
    MixSamples();
    KeySamples();
    SumSamples();
    RoundOfThree([0x11111111, 0x2468ace0, 0x9abcdef0], 0x3c6ef372);
    hide Mix, KeyIndex, Step, Steps;
    SampleStep(0x11111111, 0x2468ace0, 0x9abcdef0, 2, 0x3c6ef372, 0x3c6ef372, 0xfedcba98, 0x1880c952);
    SampleStep(0x11111111, 0x2468ace0, 0x1880c952, 1, 0x3c6ef372, 0x3c6ef372, 0x89abcdef, 0x5b4309fc);
    SampleStep(0x11111111, 0x5b4309fc, 0x1880c952, 0, 0x3c6ef372, 0x3c6ef372, 0x01234567, 0x9f147df7);
  }

  lemma SecondSample()
    ensures Steps([0x9f147df7, 0x5b4309fc, 0x1880c952], 2, 0x9e3779b9, KEY) == [0x5a8d4ce0, 0x9de66734, 0x9aa3785a]
  {
    MixSamples();
    KeySamples();
    SumSamples();
    RoundOfThree([0x9f147df7, 0x5b4309fc, 0x1880c952], 0x9e3779b9);
    hide Mix, KeyIndex, Step, Steps;
    SampleStep(0x9f147df7, 0x5b4309fc, 0x1880c952, 2, 0x9e3779b9, 0x9e3779b9, 0x01234567, 0x9aa3785a);
    SampleStep(0x9f147df7, 0x5b4309fc, 0x9aa3785a, 1, 0x9e3779b9, 0x9e3779b9, 0x76543210, 0x9de66734);
    SampleStep(0x9f147df7, 0x9de66734, 0x9aa3785a, 0, 0x9e3779b9, 0x9e3779b9, 0xfedcba98, 0x5a8d4ce0);
  }

  /** The last two rounds of a block of three words, as XXTEA computes them. */
  lemma SampleDecodes()
    ensures Decoded([0x11111111, 0x2468ace0, 0x9abcdef0], 2, KEY) == [0x5a8d4ce0, 0x9de66734, 0x9aa3785a]
  {
    FirstSample();
    SecondSample();
    assert Sum(2) == 0x3c6ef372 && Sum(1) == 0x9e3779b9;
    hide Steps, Sum;
  }

  // ----- the loop ends after exactly the intended rounds -----

  // DELTA is odd, so it has an inverse modulo 2^32.
  const INVERSE := 0x144cbc89
  const QUOTIENT := 0xc8bc280

  /** `sum` is zero only when no round is left. */
  lemma SumIsZeroIff(r: nat)
    requires r < 0x1_0000_0000
    ensures Sum(r) == 0 <==> r == 0
  {
    if Sum(r) == 0 {
      var c := r * DELTA / 0x1_0000_0000;
      assert r * 0x9e3779b9 == c * 0x1_0000_0000;
      assert 0x9e3779b9 * INVERSE == 1 + QUOTIENT * 0x1_0000_0000;
      assert r == (INVERSE * c - QUOTIENT * r) * 0x1_0000_0000;
    }
  }

  // ----- every round can be undone -----

  /** A word's neighbours are other words, so the term that was taken away can be found again. */
  lemma StepUndone(v: seq<word>, p: nat, sum: uint32, k: seq<word>)
    requires 2 <= |v| && p < |v| && |k| == 4
    ensures Unstep(Step(v, p, sum, k), p, sum, k) == v
  {
    hide Mx, Plus, Minus;
    var m := Mx(v[Right(|v|, p)], v[Left(|v|, p)], sum, p, k);
    TakeAndAdd(v[p], m);
  }

  lemma TakeAndAdd(x: word, m: word)
    ensures Plus(Minus(x, m), m) == x
  {
    assert Minus(x, m) == x - m;
    AddBack(x, m);
    hide *;
  }

  lemma AddBack(x: word, m: word)
    ensures Plus(x - m, m) == x
  {}

  lemma {:induction false} StepsUndone(v: seq<word>, p: nat, sum: uint32, k: seq<word>)
    requires 2 <= |v| && p < |v| && |k| == 4
    ensures Unsteps(Steps(v, p, sum, k), p, sum, k) == v
    decreases p
  {
    hide Step, Unstep;
    StepUndone(v, p, sum, k);
    if p > 0 {
      StepsUndone(Step(v, p, sum, k), p - 1, sum, k);
    }
  }

  lemma {:induction false} EncodedUndoesDecoded(v: seq<word>, r: nat, k: seq<word>)
    requires 2 <= |v| && |k| == 4
    ensures Encoded(Decoded(v, r, k), r, k) == v
    decreases r
  {
    hide *;
    if r == 0 {
      NothingLeft(v, k);
    } else {
      var w := Steps(v, |v| - 1, Sum(r), k);
      StepsUndone(v, |v| - 1, Sum(r), k);
      DecodedStep(v, r, k);
      EncodedStep(Decoded(v, r, k), r, k);
      EncodedUndoesDecoded(w, r - 1, k);
    }
  }

  /** Different blocks of the same size, of at least two words, decrypt differently under one key. */
  lemma DecryptionIsInjective(v: seq<word>, w: seq<word>, k: seq<word>)
    requires 2 <= |v| == |w| && |k| == 4
    ensures Decoded(v, Rounds(|v|), k) == Decoded(w, Rounds(|w|), k) ==> v == w
  {
    EncodedUndoesDecoded(v, Rounds(|v|), k);
    EncodedUndoesDecoded(w, Rounds(|w|), k);
  }

  // ----- the loop -----

  /** One pass from the last word to the first. */
  method DecodeRound(v: array<word>, y: word, sum: uint32, k: seq<word>) returns (y': word)
    requires v.Length > 0 && |k| == 4 && y == v[0]
    modifies v
    ensures v[..] == Steps(old(v[..]), v.Length - 1, sum, k) && y' == v[0]
  {
    hide Mx, Plus, Minus;
    var n := v.Length;
    y' := y;
    var p := n - 1;
    while p > 0
      invariant 0 <= p < n && y' == v[Right(n, p)]
      invariant Steps(v[..], p, sum, k) == Steps(old(v[..]), n - 1, sum, k)
    {
      var z := v[p - 1];
      ghost var was := v[..];
      v[p] := Minus(v[p], Mx(y', z, sum, p, k));
      assert v[..] == Step(was, p, sum, k);
      y' := v[p];
      p := p - 1;
    }
    ghost var was := v[..];
    v[0] := Minus(v[0], Mx(y', v[n - 1], sum, 0, k));
    assert v[..] == Step(was, 0, sum, k);
    y' := v[0];
  }

  /** The whole block; `rounds` counts the passes. */
  method Decode(v: array<word>, k: seq<word>) returns (rounds: nat)
    requires v.Length > 0 && |k| == 4
    modifies v
    ensures v[..] == Decoded(old(v[..]), Rounds(v.Length), k)
    ensures rounds == Rounds(v.Length)
  {
    hide Steps, Rounds, Sum, Wrap, Decoded;
    var y := v[0];
    var q := Rounds(v.Length);
    var sum: uint32 := Sum(q);
    rounds := 0;
    ghost var left := q;
    SumIsZeroIff(left);
    while sum != 0
      invariant rounds + left == q && sum == Sum(left) && (sum == 0 <==> left == 0)
      invariant y == v[0] && Decoded(v[..], left, k) == Decoded(old(v[..]), q, k)
      decreases left
    {
      DecodedStep(v[..], left, k);
      SumStep(left);
      y := DecodeRound(v, y, sum, k);
      sum := Wrap(sum - DELTA);
      left := left - 1;
      rounds := rounds + 1;
      SumIsZeroIff(left);
    }
    NothingLeft(v[..], k);
  }

  lemma SumStep(r: nat)
    requires r > 0
    ensures Wrap(Sum(r) - DELTA) == Sum(r - 1)
  {
    assert (r - 1) * DELTA == r * DELTA - DELTA;
    WrapStep(r * DELTA, DELTA);
    hide Wrap;
  }

  lemma WrapStep(x: int, d: int)
    ensures Wrap(Wrap(x) - d) == Wrap(x - d)
  {}

  lemma DecodedStep(v: seq<word>, r: nat, k: seq<word>)
    requires |v| > 0 && |k| == 4 && r > 0
    ensures Decoded(v, r, k) == Decoded(Steps(v, |v| - 1, Sum(r), k), r - 1, k)
  {}

  lemma EncodedStep(v: seq<word>, r: nat, k: seq<word>)
    requires |v| > 0 && |k| == 4 && r > 0
    ensures Encoded(v, r, k) == Unsteps(Encoded(v, r - 1, k), |v| - 1, Sum(r), k)
  {}

  lemma NothingLeft(v: seq<word>, k: seq<word>)
    requires |v| > 0 && |k| == 4
    ensures Decoded(v, 0, k) == v && Encoded(v, 0, k) == v
  {}
}
