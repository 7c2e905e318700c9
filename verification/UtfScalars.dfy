/** UTF-8 and UTF-16 as encodings of code points (RFC 3629, section 3; RFC 2781, section 2). */
module UtfScalars {
  import opened Bytes
  import opened Arith
  import opened Utf

  /** A code point that is not a surrogate. */
  type Scalar = c: nat | c < 0xD800 || 0xE000 <= c <= 0x10_FFFF

  function Utf8Of(c: Scalar): (s: seq<Byte>)
    ensures 1 <= |s| <= 4
  {
    if c < 0x80 then [c]
    else if c < 0x800 then [0xC0 + c / 64, 0x80 + c % 64]
    else if c < 0x1_0000 then [0xE0 + c / 0x1000, 0x80 + c / 64 % 64, 0x80 + c % 64]
    else [0xF0 + c / 0x4_0000, 0x80 + c / 0x1000 % 64, 0x80 + c / 64 % 64, 0x80 + c % 64]
  }

  function Utf16Of(c: Scalar): (u: seq<Unit>)
    ensures 1 <= |u| <= 2
  {
    if c < 0x1_0000 then [c]
    else
      var w := c - 0x1_0000;
      [0xD800 + w / 0x400, 0xDC00 + w % 0x400]
  }

  function AllUtf8(cs: seq<Scalar>): seq<Byte>
  {
    if cs == [] then [] else Utf8Of(cs[0]) + AllUtf8(cs[1..])
  }

  function AllUtf16(cs: seq<Scalar>): seq<Unit>
  {
    if cs == [] then [] else Utf16Of(cs[0]) + AllUtf16(cs[1..])
  }

  // ----- one code point

  lemma {:induction false} FieldsOf(c: nat)
    requires c <= 0x10_FFFF
    ensures c == (c / 0x4_0000) * 0x4_0000 + (c / 0x1000 % 64) * 0x1000 + (c / 64 % 64) * 64 + c % 64
    ensures c / 0x4_0000 <= 4
  {
    var b, a := c / 64, c / 0x1000;
    DivDiv(c, 64, 64);
    DivDiv(c, 0x1000, 64);
    assert c == 64 * b + c % 64 && b == 64 * a + b % 64 && a == 64 * (a / 64) + a % 64;
  }

  lemma {:induction false} TwoIs(c: nat)
    requires 0x80 <= c < 0x800
    ensures TwoUnit(0xC0 + c / 64, 0x80 + c % 64) == c
  {
    var a, b := c / 64, c % 64;
    TwoUnitFields(0xC0 + a, 0x80 + b);
    DivUnique(0xC0 + a, 32, 6, a);
    DivUnique(0x80 + b, 64, 2, b);
  }

  lemma {:induction false} ThreeIs(c: nat)
    requires 0x800 <= c < 0x1_0000
    ensures c / 0x1000 < 16 && ThreeUnit(0xE0 + c / 0x1000, 0x80 + c / 64 % 64, 0x80 + c % 64) == c
  {
    var a, b, d := c / 0x1000, c / 64 % 64, c % 64;
    DivDiv(c, 64, 64);
    assert c == 64 * (c / 64) + d && c / 64 == 64 * a + b;
    ThreeUnitFields(0xE0 + a, 0x80 + b, 0x80 + d);
    DivUnique(0xE0 + a, 16, 14, a);
    DivUnique(0x80 + b, 64, 2, b);
    DivUnique(0x80 + d, 64, 2, d);
  }

  lemma {:induction false} FourIs(c: nat)
    requires 0x1_0000 <= c <= 0x10_FFFF
    ensures var s := [0xF0 + c / 0x4_0000, 0x80 + c / 0x1000 % 64, 0x80 + c / 64 % 64, 0x80 + c % 64];
            CodePoint(s[0], s[1], s[2], s[3]) == c && Supplement(s[0], s[1], s[2], s[3]) == c - 0x1_0000
  {
    var a, b, d, e := c / 0x4_0000, c / 0x1000 % 64, c / 64 % 64, c % 64;
    FieldsOf(c);
    DivUnique(0xF0 + a, 8, 30, a);
    DivUnique(0x80 + b, 64, 2, b);
    DivUnique(0x80 + d, 64, 2, d);
    DivUnique(0x80 + e, 64, 2, e);
    SupplementOf(0xF0 + a, 0x80 + b, 0x80 + d, 0x80 + e);
  }

  /** The writer makes UTF-16 of one code point, whatever follows. */
  lemma {:induction false} OneWritten(c: Scalar, rest: seq<Byte>)
    ensures UnitsAt(Utf8Of(c) + rest, 0) == (Utf16Of(c), |Utf8Of(c)|)
  {
    hide TwoUnit, ThreeUnit, Supplement;
    if c < 0x80 {
    } else if c < 0x800 {
      TwoIs(c);
    } else if c < 0x1_0000 {
      ThreeIs(c);
    } else {
      FourWritten(c, rest);
    }
  }

  lemma {:induction false} FourWritten(c: Scalar, rest: seq<Byte>)
    requires 0x1_0000 <= c
    ensures UnitsAt(Utf8Of(c) + rest, 0) == (Utf16Of(c), 4)
  {
    hide ThreeUnit, TwoUnit, Supplement, CodePoint;
    FourIs(c);
    LeadFits(c - 0x1_0000);
    var b := Utf8Of(c);
    var s := b + rest;
    assert s[0] == b[0] && s[1] == b[1] && s[2] == b[2] && s[3] == b[3];
  }

  lemma LeadFits(w: nat)
    requires w < 0x10_0000
    ensures (0xD800 + w / 0x400) % 0x1_0000 == 0xD800 + w / 0x400
  {
  }

  /** The reader makes UTF-8 of it. */
  lemma {:induction false} OneRead(c: Scalar, rest: seq<Unit>)
    ensures Utf16ToUtf8(Utf16Of(c) + rest, NoLead) == Utf8Of(c) + Utf16ToUtf8(rest, NoLead)
  {
    hide DecodeUnit, FourOf;
    if c < 0x1_0000 {
      DecodeConcat(Utf16Of(c), rest, NoLead);
      SmallRead(c);
    } else {
      DecodePair(Utf16Of(c), rest, NoLead);
      PairBack(c, c - 0x1_0000);
      assert (0xD800 + (c - 0x1_0000) / 0x400) % 0x1_0000 == 0xD800 + (c - 0x1_0000) / 0x400;
      FourAre(c);
      assert [] + FourOf(c) == FourOf(c);
    }
  }

  lemma SmallRead(c: Scalar)
    requires c < 0x1_0000
    ensures DecodeUnit(c, NoLead) == (Utf8Of(c), NoLead)
  {
  }

  lemma {:induction false} FourAre(c: Scalar)
    requires 0x1_0000 <= c
    ensures FourOf(c) == Utf8Of(c)
  {
    FieldsOf(c);
  }

  // ----- texts

  lemma {:induction false} WrittenFrom(s: seq<Byte>, t: seq<Byte>, i: nat)
    requires i <= |s| && t == s[i..]
    ensures Utf8ToUtf16(s, i) == Utf8ToUtf16(t, 0)
    decreases |s| - i
  {
    WrittenShifted(s, t, i, 0);
  }

  lemma {:induction false} WrittenShifted(s: seq<Byte>, t: seq<Byte>, i: nat, k: nat)
    requires i <= |s| && t == s[i..] && k <= |t|
    ensures Utf8ToUtf16(s, i + k) == Utf8ToUtf16(t, k)
    decreases |t| - k
  {
    hide Supplement, ThreeUnit, TwoUnit;
    if k < |t| {
      UnitsShifted(s, t, i, k);
      var n := UnitsAt(t, k).1;
      if n > 0 {
        WrittenShifted(s, t, i, k + n);
      }
    }
  }

  lemma {:induction false} UnitsShifted(s: seq<Byte>, t: seq<Byte>, i: nat, k: nat)
    requires i <= |s| && t == s[i..] && k < |t|
    ensures UnitsAt(s, i + k) == UnitsAt(t, k)
  {
    hide Supplement, ThreeUnit, TwoUnit;
    assert forall j :: 0 <= j < |t| ==> t[j] == s[i + j];
  }

  /** The writer converts the UTF-8 form of every text to its UTF-16 form. */
  lemma {:induction false} TextWritten(cs: seq<Scalar>)
    ensures Utf8ToUtf16(AllUtf8(cs), 0) == AllUtf16(cs)
  {
    hide UnitsAt, Utf8Of, Utf16Of;
    if cs != [] {
      var rest := AllUtf8(cs[1..]);
      var s := Utf8Of(cs[0]) + rest;
      OneWritten(cs[0], rest);
      assert s[|Utf8Of(cs[0])|..] == rest;
      WrittenFrom(s, rest, |Utf8Of(cs[0])|);
      TextWritten(cs[1..]);
    }
  }

  /** The parser converts the UTF-16 form of every text to its UTF-8 form. */
  lemma {:induction false} TextRead(cs: seq<Scalar>)
    ensures Utf16ToUtf8(AllUtf16(cs), NoLead) == AllUtf8(cs)
  {
    hide Utf8Of, Utf16Of;
    if cs != [] {
      OneRead(cs[0], AllUtf16(cs[1..]));
      TextRead(cs[1..]);
    }
  }

  // ----- well-formed text is the encoding of code points

  /** The code point of a sequence of n bytes. */
  function ScalarOf(b: seq<Byte>): int
    requires 1 <= |b| <= 4
  {
    if |b| == 1 then b[0]
    else if |b| == 2 then (b[0] as int - 0xC0) * 64 + (b[1] as int - 0x80)
    else if |b| == 3 then (b[0] as int - 0xE0) * 0x1000 + (b[1] as int - 0x80) * 64 + (b[2] as int - 0x80)
    else (b[0] as int - 0xF0) * 0x4_0000 + (b[1] as int - 0x80) * 0x1000 + (b[2] as int - 0x80) * 64 + (b[3] as int - 0x80)
  }

  predicate IsScalar(c: int)
  {
    0 <= c < 0xD800 || 0xE000 <= c <= 0x10_FFFF
  }

  lemma {:induction false} WellFormedIsScalar(s: seq<Byte>, i: nat)
    requires i < |s| && WellFormedAt(s, i) > 0
    ensures WellFormedAt(s, i) <= 4
    ensures var b := s[i..i + WellFormedAt(s, i)]; IsScalar(ScalarOf(b)) && Utf8Of(ScalarOf(b)) == b
  {
    hide ScalarOf, Utf8Of;
    var n := WellFormedAt(s, i);
    var b := s[i..i + n];
    if n <= 2 {
      ShortOk(b);
    } else if n == 3 {
      ThreeOk(b);
    } else {
      FourOk(b);
    }
  }

  lemma {:induction false} ShortOk(b: seq<Byte>)
    requires if |b| == 1 then b[0] <= 0x7F else |b| == 2 && 0xC2 <= b[0] <= 0xDF && Tail(b[1])
    ensures IsScalar(ScalarOf(b)) && Utf8Of(ScalarOf(b)) == b
  {
    if |b| == 2 {
      DivUnique(ScalarOf(b), 64, b[0] as int - 0xC0, b[1] as int - 0x80);
    }
  }

  lemma {:induction false} ThreeOk(b: seq<Byte>)
    requires |b| == 3 && Tail(b[1]) && Tail(b[2])
    requires (b[0] == 0xE0 && b[1] >= 0xA0) || 0xE1 <= b[0] <= 0xEC || (b[0] == 0xED && b[1] <= 0x9F) || 0xEE <= b[0] <= 0xEF
    ensures IsScalar(ScalarOf(b)) && Utf8Of(ScalarOf(b)) == b
  {
    ThreeScalar(b[0], b[1], b[2]);
  }

  lemma {:induction false} FourOk(b: seq<Byte>)
    requires |b| == 4 && Tail(b[1]) && Tail(b[2]) && Tail(b[3])
    requires (b[0] == 0xF0 && b[1] >= 0x90) || 0xF1 <= b[0] <= 0xF3 || (b[0] == 0xF4 && b[1] <= 0x8F)
    ensures IsScalar(ScalarOf(b)) && Utf8Of(ScalarOf(b)) == b
  {
    FourScalar(b[0], b[1], b[2], b[3]);
  }

  lemma {:induction false} ThreeScalar(b0: int, b1: int, b2: int)
    requires 0xE0 <= b0 <= 0xEF && 0x80 <= b1 <= 0xBF && 0x80 <= b2 <= 0xBF
    ensures var c := (b0 - 0xE0) * 0x1000 + (b1 - 0x80) * 64 + (b2 - 0x80);
            c / 0x1000 == b0 - 0xE0 && c / 64 % 64 == b1 - 0x80 && c % 64 == b2 - 0x80
  {
    ThreeFields(b0 - 0xE0, b1 - 0x80, b2 - 0x80);
  }

  lemma {:induction false} FourScalar(b0: int, b1: int, b2: int, b3: int)
    requires 0xF0 <= b0 <= 0xF4 && 0x80 <= b1 <= 0xBF && 0x80 <= b2 <= 0xBF && 0x80 <= b3 <= 0xBF
    ensures var c := (b0 - 0xF0) * 0x4_0000 + (b1 - 0x80) * 0x1000 + (b2 - 0x80) * 64 + (b3 - 0x80);
            && c / 0x4_0000 == b0 - 0xF0 && c / 0x1000 % 64 == b1 - 0x80 && c / 64 % 64 == b2 - 0x80 && c % 64 == b3 - 0x80
  {
    var x, y, z, w := b0 - 0xF0, b1 - 0x80, b2 - 0x80, b3 - 0x80;
    var c := x * 0x4_0000 + y * 0x1000 + z * 64 + w;
    DivUnique(c, 0x4_0000, x, y * 0x1000 + z * 64 + w);
    DivUnique(c, 0x1000, x * 64 + y, z * 64 + w);
    DivUnique(x * 64 + y, 64, x, y);
    DivUnique(c, 64, (x * 64 + y) * 64 + z, w);
    DivUnique((x * 64 + y) * 64 + z, 64, x * 64 + y, z);
  }

  /** The code points of a well-formed text. */
  function Scalars(s: seq<Byte>, i: nat): (cs: seq<Scalar>)
    requires i <= |s| && WellFormed(s, i)
    decreases |s| - i
  {
    if i == |s| then []
    else
      WellFormedIsScalar(s, i);
      var n := WellFormedAt(s, i);
      [ScalarOf(s[i..i + n])] + Scalars(s, i + n)
  }

  lemma {:induction false} ScalarsBack(s: seq<Byte>, i: nat)
    requires i <= |s| && WellFormed(s, i)
    ensures AllUtf8(Scalars(s, i)) == s[i..]
    decreases |s| - i
  {
    hide WellFormedAt, Utf8Of, ScalarOf;
    if i < |s| {
      WellFormedIsScalar(s, i);
      var n := WellFormedAt(s, i);
      ScalarsBack(s, i + n);
      assert s[i..] == s[i..i + n] + s[i + n..];
    }
  }

  /** Well-formed texts are exactly the encodings of code points. */
  lemma {:induction false} WellFormedIffScalars(s: seq<Byte>)
    ensures WellFormed(s, 0) <==> exists cs :: AllUtf8(cs) == s
  {
    hide AllUtf8, AllUtf16;
    if WellFormed(s, 0) {
      ScalarsBack(s, 0);
      assert AllUtf8(Scalars(s, 0)) == s[0..] == s;
    }
    forall cs | AllUtf8(cs) == s
      ensures WellFormed(s, 0)
    {
      TextWritten(cs);
      TextRead(cs);
      RoundTrip(s, 0);
      assert s[0..] == s;
    }
  }
}
