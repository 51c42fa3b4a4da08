/** The UTF-8 sanitiser. It checks the shape of every unit (a lead byte followed by the continuation bytes that
  it announces, as in the table of section 3 of RFC 3629) and puts a `?` for every byte that is not part of one.
  It does not look for overlong forms, surrogates or code points past the last one. */
module Utf8 {
  type Byte = bv8
  type Bytes = seq<Byte>

  const QUESTION: Byte := 0x3F

  predicate IsCont(b: Byte) { 0x80 <= b <= 0xBF }

  /** One row of the table: the ranges of the lead byte and how many continuation bytes follow. */
  predicate IsUnit(u: Bytes) {
    || (|u| == 1 && u[0] <= 0x7F)
    || (|u| == 2 && 0xC0 <= u[0] <= 0xDF && IsCont(u[1]))
    || (|u| == 3 && 0xE0 <= u[0] <= 0xEF && IsCont(u[1]) && IsCont(u[2]))
    || (|u| == 4 && 0xF0 <= u[0] <= 0xF7 && IsCont(u[1]) && IsCont(u[2]) && IsCont(u[3]))
  }

  function Concat(units: seq<Bytes>): Bytes {
    if units == [] then [] else units[0] + Concat(units[1..])
  }

  /** A byte string that is a concatenation of units. */
  ghost predicate WellShaped(x: Bytes) {
    exists units: seq<Bytes> :: (forall u :: u in units ==> IsUnit(u)) && Concat(units) == x
  }

  // ------------------------------------------------------------ the scanner

  predicate ValidCont(c: Byte) { (c & 0xC0) == 0x80 }

  /** How many bytes the scanner accepts at the front, 0 if it refuses the first one. */
  function Step(x: Bytes): (n: nat)
    ensures n <= |x| && n <= 4
  {
    if x == [] then 0
    else
      var c := x[0];
      if c < 0x80 then 1
      else if (c >> 5) == 0x6 && |x| > 1 && ValidCont(x[1]) then 2
      else if (c >> 4) == 0xE && |x| > 2 && ValidCont(x[1]) && ValidCont(x[2]) then 3
      else if (c >> 3) == 0x1E && |x| > 3 && ValidCont(x[1]) && ValidCont(x[2]) && ValidCont(x[3]) then 4
      else 0
  }

  function Sanitized(x: Bytes): Bytes {
    if x == [] then []
    else if Step(x) == 0 then [QUESTION] + Sanitized(x[1..])
    else x[..Step(x)] + Sanitized(x[Step(x)..])
  }

  /** The scanner's tests at position i are those of `Step` on the rest. */
  lemma StepAt(x: Bytes, i: nat)
    requires i < |x|
    ensures var n := Step(x[i..]);
      i + n <= |x| && Sanitized(x[i..]) ==
        if n == 0 then [QUESTION] + Sanitized(x[i + 1..]) else x[i..i + n] + Sanitized(x[i + n..])
  {
    hide Step;
    var rest := x[i..];
    var n := Step(rest);
    assert rest[1..] == x[i + 1..] && rest[..n] == x[i..i + n] && rest[n..] == x[i + n..];
  }

  lemma SanitizedNothing()
    ensures Sanitized([]) == []
  {
  }

  /** The sanitiser; without the strict flag it leaves its argument alone. */
  method Sanitize(strict: bool, x: Bytes) returns (o: Bytes)
    ensures o == if strict then Sanitized(x) else x
  {
    hide Sanitized, ValidCont;
    if !strict { return x; }
    o := [];
    var i := 0;
    assert x[0..] == x;
    while i < |x|
      invariant 0 <= i <= |x| && o + Sanitized(x[i..]) == Sanitized(x)
    {
      StepAt(x, i);
      var c := x[i];
      if c < 0x80 {
        o := o + [c];
        i := i + 1;
        assert x[i - 1..i] == [c];
      } else if (c >> 5) == 0x6 && i + 1 < |x| && ValidCont(x[i + 1]) {
        o := o + x[i..i + 2];
        i := i + 2;
      } else if (c >> 4) == 0xE && i + 2 < |x| && ValidCont(x[i + 1]) && ValidCont(x[i + 2]) {
        o := o + x[i..i + 3];
        i := i + 3;
      } else if (c >> 3) == 0x1E && i + 3 < |x| && ValidCont(x[i + 1]) && ValidCont(x[i + 2]) && ValidCont(x[i + 3]) {
        o := o + x[i..i + 4];
        i := i + 4;
      } else {
        o := o + [QUESTION];
        i := i + 1;
      }
    }
    assert x[|x|..] == [];
    SanitizedNothing();
  }

  // -------------------------------------------------------- what it computes

  lemma MasksAreRanges(c: Byte)
    ensures ValidCont(c) <==> IsCont(c)
    ensures (c >> 5) == 0x6 <==> 0xC0 <= c <= 0xDF
    ensures (c >> 4) == 0xE <==> 0xE0 <= c <= 0xEF
    ensures (c >> 3) == 0x1E <==> 0xF0 <= c <= 0xF7
  {
  }

  /** The scanner accepts exactly the units of the table. */
  lemma StepTakesUnit(x: Bytes)
    ensures Step(x) > 0 ==> IsUnit(x[..Step(x)])
  {
    if x != [] {
      MasksAreRanges(x[0]);
      if |x| > 1 { MasksAreRanges(x[1]); }
      if |x| > 2 { MasksAreRanges(x[2]); }
      if |x| > 3 { MasksAreRanges(x[3]); }
    }
  }

  lemma StepFindsUnit(u: Bytes, rest: Bytes)
    requires IsUnit(u)
    ensures Step(u + rest) == |u|
  {
    MasksAreRanges(u[0]);
    if |u| > 1 { MasksAreRanges(u[1]); }
    if |u| > 2 { MasksAreRanges(u[2]); }
    if |u| > 3 { MasksAreRanges(u[3]); }
  }

  lemma PrependUnit(u: Bytes, x: Bytes)
    requires IsUnit(u) && WellShaped(x)
    ensures WellShaped(u + x)
  {
    var units: seq<Bytes> :| (forall v :: v in units ==> IsUnit(v)) && Concat(units) == x;
    var more := [u] + units;
    assert more[1..] == units;
    assert Concat(more) == u + x;
  }

  lemma NothingIsWellShaped()
    ensures WellShaped([])
  {
    var none: seq<Bytes> := [];
    assert Concat(none) == [];
  }

  lemma QuestionIsUnit()
    ensures IsUnit([QUESTION])
  {
  }

  /** Whatever comes in, units come out. */
  lemma {:induction false} OutputIsWellShaped(x: Bytes)
    ensures WellShaped(Sanitized(x))
    decreases |x|
  {
    hide WellShaped, IsUnit, Step;
    if x == [] {
      NothingIsWellShaped();
    } else if Step(x) == 0 {
      OutputIsWellShaped(x[1..]);
      QuestionIsUnit();
      PrependUnit([QUESTION], Sanitized(x[1..]));
    } else {
      OutputIsWellShaped(x[Step(x)..]);
      StepTakesUnit(x);
      PrependUnit(x[..Step(x)], Sanitized(x[Step(x)..]));
    }
  }

  /** Byte for byte the output is the input, except for question marks, which have the number 3F. */
  lemma {:induction false} OutputIsInputOrQuestion(x: Bytes)
    ensures |Sanitized(x)| == |x|
    ensures forall i :: 0 <= i < |x| ==> Sanitized(x)[i] == x[i] || Sanitized(x)[i] == 0x3F
    decreases |x|
  {
    hide Step;
    if x != [] {
      var n := if Step(x) == 0 then 1 else Step(x);
      OutputIsInputOrQuestion(x[n..]);
      forall i | 0 <= i < |x| ensures Sanitized(x)[i] == x[i] || Sanitized(x)[i] == 0x3F {
        if i >= n { assert x[i] == x[n..][i - n] && Sanitized(x)[i] == Sanitized(x[n..])[i - n]; }
      }
    }
  }

  lemma UnitIsNotEmpty(u: Bytes)
    requires IsUnit(u)
    ensures u != []
  {
  }

  lemma {:induction false} UnitsPassUnchanged(units: seq<Bytes>)
    requires forall u :: u in units ==> IsUnit(u)
    ensures Sanitized(Concat(units)) == Concat(units)
    decreases |units|
  {
    hide IsUnit, Step;
    if units != [] {
      var u, rest := units[0], Concat(units[1..]);
      UnitsPassUnchanged(units[1..]);
      StepFindsUnit(u, rest);
      UnitIsNotEmpty(u);
      assert (u + rest)[..|u|] == u && (u + rest)[|u|..] == rest;
    }
  }

  /** The sanitiser leaves a byte string alone exactly when it is made of units. */
  lemma IdentityExactlyOnWellShaped(x: Bytes)
    ensures Sanitized(x) == x <==> WellShaped(x)
  {
    OutputIsWellShaped(x);
    if WellShaped(x) {
      var units: seq<Bytes> :| (forall u :: u in units ==> IsUnit(u)) && Concat(units) == x;
      UnitsPassUnchanged(units);
    }
  }

  lemma Idempotent(x: Bytes)
    ensures Sanitized(Sanitized(x)) == Sanitized(x)
  {
    OutputIsWellShaped(x);
    IdentityExactlyOnWellShaped(Sanitized(x));
  }

  /** What is kept is decided from the front alone: units in front pass unchanged, whatever follows. */
  lemma {:induction false} UnitsInFrontPass(units: seq<Bytes>, rest: Bytes)
    requires forall u :: u in units ==> IsUnit(u)
    ensures Sanitized(Concat(units) + rest) == Concat(units) + Sanitized(rest)
    decreases |units|
  {
    hide IsUnit, Step;
    if units == [] {
      assert Concat(units) + rest == rest;
    } else {
      var u, more := units[0], Concat(units[1..]);
      UnitsInFrontPass(units[1..], rest);
      StepFindsUnit(u, more + rest);
      UnitIsNotEmpty(u);
      assert Concat(units) + rest == u + (more + rest);
      assert (u + (more + rest))[..|u|] == u && (u + (more + rest))[|u|..] == more + rest;
    }
  }

  /** A first byte with which no unit starts is replaced, and only that byte. Together with the previous lemma
    this says what becomes of every byte string. */
  lemma StrayIsReplaced(x: Bytes)
    requires x != [] && forall n: nat :: n <= |x| ==> !IsUnit(x[..n])
    ensures Sanitized(x) == [0x3F] + Sanitized(x[1..])
  {
    hide IsUnit, Step;
    StepTakesUnit(x);
  }

  // ------------------------------------------------------- characters

  /** The bytes of a character number, by the table in section 3 of RFC 3629: its bits are spread over n bytes. */
  function Encoded(v: bv32, n: nat): Bytes
    requires 1 <= n <= 4
  {
    match n
    case 1 => [(v & 0x7F) as bv8]
    case 2 => [(0xC0 | ((v >> 6) & 0x1F)) as bv8, (0x80 | (v & 0x3F)) as bv8]
    case 3 => [(0xE0 | ((v >> 12) & 0x0F)) as bv8, (0x80 | ((v >> 6) & 0x3F)) as bv8, (0x80 | (v & 0x3F)) as bv8]
    case 4 => [(0xF0 | ((v >> 18) & 0x07)) as bv8, (0x80 | ((v >> 12) & 0x3F)) as bv8,
               (0x80 | ((v >> 6) & 0x3F)) as bv8, (0x80 | (v & 0x3F)) as bv8]
  }

  /** The bits in front, followed by the six bits of a continuation byte. */
  function Joined(v: bv32, b: Byte): bv32 {
    (v << 6) | ((b & 0x3F) as bv32)
  }

  function Decoded(u: Bytes): bv32
    requires 1 <= |u| <= 4
  {
    match |u|
    case 1 => u[0] as bv32
    case 2 => Joined((u[0] & 0x1F) as bv32, u[1])
    case 3 => Joined(Joined((u[0] & 0x0F) as bv32, u[1]), u[2])
    case 4 => Joined(Joined(Joined((u[0] & 0x07) as bv32, u[1]), u[2]), u[3])
  }

  lemma EncodedIsUnit(v: bv32, n: nat)
    requires 1 <= n <= 4
    ensures IsUnit(Encoded(v, n)) && |Encoded(v, n)| == n
  {
  }

  lemma UnitIsEncoded(u: Bytes)
    requires IsUnit(u)
    ensures u == Encoded(Decoded(u), |u|)
  {
    if |u| == 1 {
      assert u == [u[0]];
    } else if |u| == 2 {
      assert u == [u[0], u[1]];
    } else if |u| == 3 {
      assert u == [u[0], u[1], u[2]];
    } else {
      assert u == [u[0], u[1], u[2], u[3]];
    }
  }

  lemma UnitLength(u: Bytes)
    ensures IsUnit(u) ==> 1 <= |u| <= 4
  {
  }

  /** A unit of n bytes is what the table makes of some character number. */
  lemma UnitsAreEncodings(u: Bytes)
    ensures IsUnit(u) <==> 1 <= |u| <= 4 && exists v :: u == Encoded(v, |u|)
  {
    hide IsUnit, Encoded, Decoded;
    if IsUnit(u) {
      assert 1 <= |u| <= 4 by { UnitLength(u); }
      UnitIsEncoded(u);
    } else if 1 <= |u| <= 4 && exists v :: u == Encoded(v, |u|) {
      var v :| u == Encoded(v, |u|);
      EncodedIsUnit(v, |u|);
    }
  }

  function LengthOf(v: bv32): (n: nat)
    ensures 1 <= n <= 4
  {
    if v < 0x80 then 1 else if v < 0x800 then 2 else if v < 0x1_0000 then 3 else 4
  }

  /** The encoding of a whole text, with the number of bytes that each character takes. */
  function EncodedText(text: seq<bv32>): Bytes {
    if text == [] then [] else Encoded(text[0], LengthOf(text[0])) + EncodedText(text[1..])
  }

  /** Text in UTF-8 passes unchanged. */
  lemma {:induction false} TextPasses(text: seq<bv32>)
    ensures Sanitized(EncodedText(text)) == EncodedText(text)
  {
    hide IsUnit, Encoded, Step, LengthOf;
    if text == [] {
      SanitizedNothing();
    } else {
      var u, rest := Encoded(text[0], LengthOf(text[0])), EncodedText(text[1..]);
      EncodedIsUnit(text[0], LengthOf(text[0]));
      TextPasses(text[1..]);
      StepFindsUnit(u, rest);
      assert (u + rest)[..|u|] == u && (u + rest)[|u|..] == rest;
    }
  }
}
