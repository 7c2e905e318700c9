/** The two string conversions of the binary property list format. */
module Utf {
  import opened Bytes
  import opened Arith

  type Unit = u: nat | u < 0x1_0000

  // ----- UTF-8 to UTF-16, as the writer does it

  predicate FourBytes(s: seq<Byte>, i: nat)
  {
    i + 3 < |s| && s[i] >= 0xF0 && s[i + 1] >= 0x80 && s[i + 2] >= 0x80 && s[i + 3] >= 0x80
  }

  predicate ThreeBytes(s: seq<Byte>, i: nat)
  {
    i + 2 < |s| && s[i] >= 0xE0 && s[i + 1] >= 0x80 && s[i + 2] >= 0x80
  }

  predicate TwoBytes(s: seq<Byte>, i: nat)
  {
    i + 1 < |s| && s[i] >= 0xC0 && s[i + 1] >= 0x80
  }

  /** The 32-bit word left after taking 0x10000 from a four-byte sequence. */
  function Supplement(c0: nat, c1: nat, c2: nat, c3: nat): nat
  {
    ((c0 % 8) * 0x40000 + (c1 % 64) * 0x1000 + (c2 % 64) * 64 + c3 % 64 - 0x1_0000) % 0x1_0000_0000
  }

  function ThreeUnit(c0: nat, c1: nat, c2: nat): nat
  {
    c2 % 64 + (c1 % 4) * 64 + (c1 / 4 % 16) * 0x100 + (c0 % 16) * 0x1000
  }

  function TwoUnit(c0: nat, c1: nat): nat
  {
    c1 % 64 + (c0 % 4) * 64 + (c0 / 4 % 8) * 0x100
  }

  /** The units written for the sequence at i, and its length; length 0 stops the conversion. */
  function UnitsAt(s: seq<Byte>, i: nat): (r: (seq<Unit>, nat))
    requires i < |s|
    ensures i + r.1 <= |s| && (r.1 == 0 ==> r.0 == [])
  {
    if FourBytes(s, i) then
      var w := Supplement(s[i], s[i + 1], s[i + 2], s[i + 3]);
      ([(0xD800 + w / 0x400) % 0x1_0000, 0xDC00 + w % 0x400], 4)
    else if ThreeBytes(s, i) then
      ([ThreeUnit(s[i], s[i + 1], s[i + 2])], 3)
    else if TwoBytes(s, i) then
      ([TwoUnit(s[i], s[i + 1])], 2)
    else if s[i] < 0x80 then
      ([s[i]], 1)
    else
      ([], 0)
  }

  function Utf8ToUtf16(s: seq<Byte>, i: nat): seq<Unit>
    requires i <= |s|
    decreases |s| - i
  {
    if i == |s| then [] else
    var (units, n) := UnitsAt(s, i);
    if n == 0 then [] else units + Utf8ToUtf16(s, i + n)
  }

  /** The conversion loop of the writer. */
  method WriteUtf16(unistr: seq<Byte>) returns (outbuf: seq<Unit>)
    ensures outbuf == Utf8ToUtf16(unistr, 0)
  {
    hide UnitsAt;
    outbuf := [];
    var i := 0;
    while i < |unistr|
      invariant i <= |unistr|
      invariant outbuf + Utf8ToUtf16(unistr, i) == Utf8ToUtf16(unistr, 0)
    {
      var (units, n) := UnitsAt(unistr, i);
      assert outbuf + (units + if n == 0 then [] else Utf8ToUtf16(unistr, i + n)) == Utf8ToUtf16(unistr, 0);
      if n == 0 {
        assert outbuf + [] == outbuf;
        return;
      }
      assert outbuf + (units + Utf8ToUtf16(unistr, i + n)) == (outbuf + units) + Utf8ToUtf16(unistr, i + n);
      outbuf := outbuf + units;
      i := i + n;
    }
    assert outbuf + [] == outbuf;
  }

  // ----- UTF-16 to UTF-8, as the parser does it

  /** What the parser remembers between units: the pending lead surrogate, if any. */
  datatype Pending = NoLead | Lead(w: nat)

  function LeadOf(wc: Unit): (p: Pending)
  {
    Lead(0x1_0000 + (wc % 0x400) * 0x400)
  }

  function FourOf(w: nat): (r: seq<Byte>)
    ensures |r| == 4
  {
    [0xF0 + w / 0x40000 % 8, 0x80 + w / 0x1000 % 64, 0x80 + w / 64 % 64, 0x80 + w % 64]
  }

  /** One unit: the bytes it produces and what is pending afterwards. */
  function DecodeUnit(wc: Unit, lead: Pending): (r: (seq<Byte>, Pending))
  {
    if 0xD800 <= wc <= 0xDBFF then
      ([], if lead.NoLead? then LeadOf(wc) else NoLead)
    else if 0xDC00 <= wc <= 0xDFFF then
      if lead.Lead? then (FourOf(lead.w + wc % 0x400), NoLead) else ([], NoLead)
    else if wc >= 0x800 then
      ([0xE0 + wc / 0x1000 % 16, 0x80 + wc / 64 % 64, 0x80 + wc % 64], lead)
    else if wc >= 0x80 then
      ([0xC0 + wc / 64 % 32, 0x80 + wc % 64], lead)
    else
      ([wc % 128], lead)
  }

  function Utf16ToUtf8(units: seq<Unit>, lead: Pending): seq<Byte>
  {
    if units == [] then [] else
    var (bytes, lead') := DecodeUnit(units[0], lead);
    bytes + Utf16ToUtf8(units[1..], lead')
  }

  /** The conversion loop of the parser. */
  method ReadUtf16(unistr: seq<Unit>) returns (outbuf: seq<Byte>)
    ensures outbuf == Utf16ToUtf8(unistr, NoLead)
  {
    hide DecodeUnit;
    outbuf := [];
    var lead := NoLead;
    var i := 0;
    assert unistr[0..] == unistr;
    while i < |unistr|
      invariant i <= |unistr|
      invariant outbuf + Utf16ToUtf8(unistr[i..], lead) == Utf16ToUtf8(unistr, NoLead)
    {
      var (bytes, lead') := DecodeUnit(unistr[i], lead);
      assert unistr[i..][1..] == unistr[i + 1..];
      assert outbuf + (bytes + Utf16ToUtf8(unistr[i + 1..], lead')) == (outbuf + bytes) + Utf16ToUtf8(unistr[i + 1..], lead');
      outbuf := outbuf + bytes;
      lead := lead';
      i := i + 1;
    }
    assert outbuf + [] == outbuf;
  }

  // ----- well-formed UTF-8 (RFC 3629, section 4)

  predicate Tail(b: Byte) { 0x80 <= b <= 0xBF }

  /** The length of the well-formed sequence at i, or 0. */
  function WellFormedAt(s: seq<Byte>, i: nat): (n: nat)
    requires i < |s|
    ensures i + n <= |s|
  {
    var left := |s| - i;
    if s[i] <= 0x7F then 1
    else if left >= 2 && 0xC2 <= s[i] <= 0xDF && Tail(s[i + 1]) then 2
    else if left >= 3 && Tail(s[i + 1]) && Tail(s[i + 2]) &&
            ((s[i] == 0xE0 && s[i + 1] >= 0xA0) || 0xE1 <= s[i] <= 0xEC || (s[i] == 0xED && s[i + 1] <= 0x9F) || 0xEE <= s[i] <= 0xEF) then 3
    else if left >= 4 && Tail(s[i + 1]) && Tail(s[i + 2]) && Tail(s[i + 3]) &&
            ((s[i] == 0xF0 && s[i + 1] >= 0x90) || 0xF1 <= s[i] <= 0xF3 || (s[i] == 0xF4 && s[i + 1] <= 0x8F)) then 4
    else 0
  }

  predicate WellFormed(s: seq<Byte>, i: nat := 0)
    requires i <= |s|
    decreases |s| - i
  {
    i == |s| || (WellFormedAt(s, i) > 0 && WellFormed(s, i + WellFormedAt(s, i)))
  }

  // ----- each direction undoes the other exactly on well-formed text

  /** A lead surrogate, as it is remembered, leaves room for ten low bits below 0x110000. */
  predicate PendingOk(p: Pending)
  {
    p.Lead? ==> 0x1_0000 <= p.w < 0x11_0000 && p.w % 0x400 == 0
  }

  lemma {:induction false} DecodeConcat(a: seq<Unit>, b: seq<Unit>, p: Pending)
    requires |a| == 1
    ensures Utf16ToUtf8(a + b, p) == DecodeUnit(a[0], p).0 + Utf16ToUtf8(b, DecodeUnit(a[0], p).1)
  {
    assert (a + b)[1..] == b;
  }

  lemma {:induction false} DecodePair(a: seq<Unit>, b: seq<Unit>, p: Pending)
    requires |a| == 2
    ensures var r := DecodeUnit(a[0], p);
            var t := DecodeUnit(a[1], r.1);
            Utf16ToUtf8(a + b, p) == r.0 + t.0 + Utf16ToUtf8(b, t.1)
  {
    assert a + b == [a[0]] + ([a[1]] + b);
    DecodeConcat([a[0]], [a[1]] + b, p);
    DecodeConcat([a[1]], b, DecodeUnit(a[0], p).1);
    var x, y, z := DecodeUnit(a[0], p).0, DecodeUnit(a[1], DecodeUnit(a[0], p).1).0,
                   Utf16ToUtf8(b, DecodeUnit(a[1], DecodeUnit(a[0], p).1).1);
    assert x + (y + z) == x + y + z;
  }

  /** A text with another beginning is another text. */
  lemma {:induction false} OtherStart(a: seq<Byte>, rest: seq<Byte>, t: seq<Byte>)
    requires |a| <= |t| && a != t[..|a|]
    ensures a + rest != t
  {
    assert (a + rest)[..|a|] == a;
  }

  lemma {:induction false} TwoBack(c0: nat, c1: nat)
    requires 0xC0 <= c0 < 256 && 0x80 <= c1 < 256
    ensures TwoUnit(c0, c1) < 0x800
    ensures var r := DecodeUnit(TwoUnit(c0, c1), NoLead);
            r.0 == [c0, c1] <==> 0xC2 <= c0 <= 0xDF && c1 <= 0xBF
    ensures var r := DecodeUnit(TwoUnit(c0, c1), NoLead);
            r.1 == NoLead && 1 <= |r.0| <= 2 && (|r.0| == 2 || r.0[0] < 0x80)
  {
    hide TwoUnit;
    var a, b := c0 % 32, c1 % 64;
    TwoUnitFields(c0, c1);
    DivUnique(a * 64 + b, 64, a, b);
    assert c0 == 0xC0 + a || c0 == 0xE0 + a;
    assert c1 == 0x80 + b || c1 == 0xC0 + b;
  }

  lemma {:induction false} TwoUnitFields(c0: nat, c1: nat)
    requires 0xC0 <= c0 < 256 && 0x80 <= c1 < 256
    ensures TwoUnit(c0, c1) == (c0 % 32) * 64 + c1 % 64
  {
  }

  /** Encoded surrogates: nothing is produced that could match them. */
  predicate SurrogateStart(t: seq<Byte>)
  {
    |t| >= 2 && t[0] >= 0xE0 && t[0] % 16 == 0xD && t[1] % 64 >= 0x20
  }

  lemma {:induction false} ThreeFields(a: nat, b: nat, c: nat)
    requires a < 16 && b < 64 && c < 64
    ensures var u := a * 0x1000 + b * 64 + c;
            u < 0x1_0000 && u / 0x1000 == a && u / 64 == a * 64 + b && u / 64 % 64 == b && u % 64 == c
  {
    var u := a * 0x1000 + b * 64 + c;
    DivUnique(u, 0x1000, a, b * 64 + c);
    DivUnique(u, 64, a * 64 + b, c);
    DivUnique(a * 64 + b, 64, a, b);
  }

  lemma {:induction false} ThreeUnitFields(c0: nat, c1: nat, c2: nat)
    requires 0xE0 <= c0 < 256 && 0x80 <= c1 < 256 && 0x80 <= c2 < 256
    ensures ThreeUnit(c0, c1, c2) == (c0 % 16) * 0x1000 + (c1 % 64) * 64 + c2 % 64
  {
  }

  lemma {:induction false} ThreeBack(c0: nat, c1: nat, c2: nat)
    requires 0xE0 <= c0 < 256 && 0x80 <= c1 < 256 && 0x80 <= c2 < 256
    ensures ThreeUnit(c0, c1, c2) < 0x1_0000
    ensures var u := ThreeUnit(c0, c1, c2);
            0xD800 <= u <= 0xDFFF <==> c0 % 16 == 0xD && c1 % 64 >= 0x20
    ensures var r := DecodeUnit(ThreeUnit(c0, c1, c2), NoLead);
            r.0 == [c0, c1, c2] <==>
              c0 <= 0xEF && c1 <= 0xBF && c2 <= 0xBF && (c0 == 0xE0 ==> c1 >= 0xA0) && (c0 == 0xED ==> c1 <= 0x9F)
    ensures var u := ThreeUnit(c0, c1, c2);
            var r := DecodeUnit(u, NoLead);
            !(0xD800 <= u <= 0xDFFF) ==> r.1 == NoLead && 1 <= |r.0| <= 3 && (|r.0| == 3 || r.0[0] < 0xE0)
  {
    hide ThreeUnit;
    var a, b, c := c0 % 16, c1 % 64, c2 % 64;
    ThreeUnitFields(c0, c1, c2);
    ThreeFields(a, b, c);
    var u := ThreeUnit(c0, c1, c2);
    assert c0 == 0xE0 + a || c0 == 0xF0 + a;
    assert c1 == 0x80 + b || c1 == 0xC0 + b;
    assert c2 == 0x80 + c || c2 == 0xC0 + c;
  }

  /** Code points beyond 0x10FFFF: nothing is produced that could match them either. */
  predicate BeyondStart(t: seq<Byte>)
  {
    |t| >= 2 && t[0] >= 0xF0 && (t[0] % 8 >= 5 || (t[0] % 8 == 4 && t[1] % 64 >= 0x10))
  }

  function CodePoint(c0: nat, c1: nat, c2: nat, c3: nat): nat
  {
    (c0 % 8) * 0x40000 + (c1 % 64) * 0x1000 + (c2 % 64) * 64 + c3 % 64
  }

  lemma SupplementOf(c0: nat, c1: nat, c2: nat, c3: nat)
    ensures CodePoint(c0, c1, c2, c3) < 0x20_0000
    ensures Supplement(c0, c1, c2, c3)
            == CodePoint(c0, c1, c2, c3) + if CodePoint(c0, c1, c2, c3) < 0x1_0000 then 0xFFFF_0000 else -0x1_0000
  {
  }

  lemma {:induction false} WellFormedFour(c0: nat, c1: nat, c2: nat, c3: nat)
    requires 0x80 <= c1 <= 0xBF
    requires (c0 == 0xF0 && c1 >= 0x90) || 0xF1 <= c0 <= 0xF3 || (c0 == 0xF4 && c1 <= 0x8F)
    ensures 0x1_0000 <= CodePoint(c0, c1, c2, c3) <= 0x10_FFFF
  {
    assert c0 % 8 == c0 - 0xF0 && c1 % 64 == c1 - 0x80;
  }

  lemma {:induction false} FourFields(a: nat, b: nat, c: nat, d: nat)
    requires a < 8 && b < 64 && c < 64 && d < 64
    ensures FourOf(a * 0x40000 + b * 0x1000 + c * 64 + d) == [0xF0 + a, 0x80 + b, 0x80 + c, 0x80 + d]
  {
    var w := a * 0x40000 + b * 0x1000 + c * 64 + d;
    DivUnique(w, 0x40000, a, b * 0x1000 + c * 64 + d);
    DivUnique(w, 0x1000, a * 64 + b, c * 64 + d);
    DivUnique(a * 64 + b, 64, a, b);
    DivUnique(w, 64, a * 0x1000 + b * 64 + c, d);
    DivUnique(a * 0x1000 + b * 64 + c, 64, a * 64 + b, c);
  }

  /** The two units of a supplementary code point come back as its four bytes. */
  lemma {:induction false} PairBack(cp: nat, w: nat)
    requires 0x1_0000 <= cp <= 0x10_FFFF && w == cp - 0x1_0000
    ensures var u, v := (0xD800 + w / 0x400) % 0x1_0000, 0xDC00 + w % 0x400;
            0xD800 <= u <= 0xDBFF && 0xDC00 <= v <= 0xDFFF && DecodeUnit(u, NoLead) == ([], LeadOf(u)) &&
            DecodeUnit(v, LeadOf(u)) == (FourOf(cp), NoLead)
  {
    hide FourOf;
    var h, l := w / 0x400, w % 0x400;
    assert w == 0x400 * h + l && h < 0x400;
    DivUnique(0xD800 + h, 0x400, 54, h);
    DivUnique(0xDC00 + l, 0x400, 55, l);
  }

  lemma {:induction false} FourBack(c0: nat, c1: nat, c2: nat, c3: nat)
    requires 0xF0 <= c0 < 256 && 0x80 <= c1 < 256 && 0x80 <= c2 < 256 && 0x80 <= c3 < 256
    requires 0x1_0000 <= CodePoint(c0, c1, c2, c3) <= 0x10_FFFF
    ensures FourOf(CodePoint(c0, c1, c2, c3)) == [c0, c1, c2, c3] <==>
              c0 <= 0xF7 && c1 <= 0xBF && c2 <= 0xBF && c3 <= 0xBF
    ensures c0 <= 0xF7 && c1 <= 0xBF ==> c0 <= 0xF4 && (c0 == 0xF0 ==> c1 >= 0x90) && (c0 == 0xF4 ==> c1 <= 0x8F)
  {
    hide FourOf;
    var a, b, c, d := c0 % 8, c1 % 64, c2 % 64, c3 % 64;
    FourFields(a, b, c, d);
    assert c0 == 0xF0 + a || c0 == 0xF8 + a;
    assert c1 == 0x80 + b || c1 == 0xC0 + b;
    assert c2 == 0x80 + c || c2 == 0xC0 + c;
    assert c3 == 0x80 + d || c3 == 0xC0 + d;
  }

  lemma {:induction false} OverlongWrong(cp: nat, w: nat)
    requires cp < 0x1_0000 && w == cp + 0xFFFF_0000
    ensures var u := (0xD800 + w / 0x400) % 0x1_0000;
            |DecodeUnit(u, NoLead).0| == 3 && DecodeUnit(u, NoLead).0[0] < 0xF0
  {
    var h := cp / 0x400;
    DivUnique(w, 0x400, h + 0x3FFFC0, cp % 0x400);
    DivUnique(0xD800 + h + 0x3FFFC0, 0x1_0000, 64, 0xD7C0 + h);
  }

  lemma {:induction false} BeyondWrong(cp: nat, w: nat)
    requires 0x10_FFFF < cp < 0x20_0000 && w == cp - 0x1_0000
    ensures var u, v := (0xD800 + w / 0x400) % 0x1_0000, 0xDC00 + w % 0x400;
            DecodeUnit(u, NoLead) == ([], NoLead) && DecodeUnit(v, NoLead) == ([], NoLead)
  {
    var h := w / 0x400;
    assert 0x400 <= h < 0x7C0;
  }

  lemma {:induction false} BeyondMarks(c0: nat, c1: nat, c2: nat, c3: nat)
    requires 0xF0 <= c0 < 256 && CodePoint(c0, c1, c2, c3) > 0x10_FFFF
    ensures c0 % 8 >= 5 || (c0 % 8 == 4 && c1 % 64 >= 0x10)
  {
  }

  /** Whatever the units, the text produced never starts with an encoded surrogate or a code point
      beyond the last. */
  lemma {:induction false} NeverProduced(units: seq<Unit>, p: Pending)
    requires PendingOk(p)
    ensures !SurrogateStart(Utf16ToUtf8(units, p)) && !BeyondStart(Utf16ToUtf8(units, p))
  {
    hide DecodeUnit;
    if units == [] {
    } else {
      var (bytes, p') := DecodeUnit(units[0], p);
      DecodeStart(units[0], p);
      NeverProduced(units[1..], p');
      if bytes == [] {
        assert Utf16ToUtf8(units, p) == Utf16ToUtf8(units[1..], p');
      }
    }
  }

  lemma {:induction false} DecodeStart(u: Unit, p: Pending)
    requires PendingOk(p)
    ensures PendingOk(DecodeUnit(u, p).1)
    ensures var b := DecodeUnit(u, p).0;
            b != [] ==> (b[0] < 0xE0 || (|b| >= 2 && !SurrogateStart(b) && !BeyondStart(b)))
  {
    hide FourOf, SurrogateStart, BeyondStart, LeadOf;
    LeadOk(u);
    if p.Lead? && 0xDC00 <= u <= 0xDFFF {
      BelowLast(p.w, u % 0x400);
      FourStart(p.w + u % 0x400);
    } else if u >= 0x800 && !(0xD800 <= u <= 0xDFFF) {
      ThreeStart(u);
    }
  }

  lemma LeadOk(u: Unit)
    ensures PendingOk(LeadOf(u))
  {
    ModShift(0, 0x400, 0x40 + u % 0x400);
  }

  lemma BelowLast(w: nat, low: nat)
    requires w < 0x11_0000 && w % 0x400 == 0 && low < 0x400
    ensures w + low < 0x11_0000
  {
    var q := w / 0x400;
    assert w == 0x400 * q;
  }

  lemma {:induction false} ThreeStart(u: Unit)
    requires u >= 0x800 && !(0xD800 <= u <= 0xDFFF)
    ensures var b := [0xE0 + u / 0x1000 % 16, 0x80 + u / 64 % 64, 0x80 + u % 64];
            !SurrogateStart(b) && !BeyondStart(b)
  {
    var a, x := u / 0x1000, u % 0x1000;
    var b, c := x / 64, x % 64;
    assert u == a * 0x1000 + b * 64 + c;
    ThreeFields(a, b, c);
    DivUnique(0xE0 + a, 16, 14, a);
    DivUnique(0x80 + b, 64, 2, b);
  }

  lemma {:induction false} FourStart(w: nat)
    requires w < 0x11_0000
    ensures !SurrogateStart(FourOf(w)) && !BeyondStart(FourOf(w)) && |FourOf(w)| == 4
  {
    hide FourOf;
    var a, x := w / 0x40000, w % 0x40000;
    var b, y := x / 0x1000, x % 0x1000;
    var c, d := y / 64, y % 64;
    FourFields(a, b, c, d);
  }

  /** The text of one well-formed sequence comes back, and nothing stays pending. */
  lemma {:induction false} SequenceBack(s: seq<Byte>, i: nat)
    requires i < |s|
    ensures var n := WellFormedAt(s, i);
            n > 0 ==> Utf16ToUtf8(Utf8ToUtf16(s, i), NoLead) == s[i..i + n] + Utf16ToUtf8(Utf8ToUtf16(s, i + n), NoLead)
    ensures WellFormedAt(s, i) == 0 ==> Utf16ToUtf8(Utf8ToUtf16(s, i), NoLead) != s[i..]
  {
    hide DecodeUnit, FourOf, TwoUnit, ThreeUnit, Supplement;
    if FourBytes(s, i) {
      FourCase(s, i);
    } else if ThreeBytes(s, i) {
      ThreeCase(s, i);
    } else if TwoBytes(s, i) {
      TwoCase(s, i);
    } else if s[i] < 0x80 {
      OneBack(s[i]);
      DecodeConcat([s[i]], Utf8ToUtf16(s, i + 1), NoLead);
      assert s[i..i + 1] == [s[i]];
    } else {
      NothingBack(s);
    }
  }

  lemma OneBack(c: Byte)
    requires c < 0x80
    ensures DecodeUnit(c, NoLead) == ([c], NoLead)
  {
  }

  lemma {:induction false} TwoCase(s: seq<Byte>, i: nat)
    requires i < |s| && !FourBytes(s, i) && !ThreeBytes(s, i) && TwoBytes(s, i)
    ensures WellFormedAt(s, i) > 0 ==>
              WellFormedAt(s, i) == 2 &&
              Utf16ToUtf8(Utf8ToUtf16(s, i), NoLead) == s[i..i + 2] + Utf16ToUtf8(Utf8ToUtf16(s, i + 2), NoLead)
    ensures WellFormedAt(s, i) == 0 ==> Utf16ToUtf8(Utf8ToUtf16(s, i), NoLead) != s[i..]
  {
    hide Utf16ToUtf8, TwoUnit, DecodeUnit;
    TwoBack(s[i], s[i + 1]);
    var u := TwoUnit(s[i], s[i + 1]);
    var rest := Utf16ToUtf8(Utf8ToUtf16(s, i + 2), NoLead);
    DecodeConcat([u], Utf8ToUtf16(s, i + 2), NoLead);
    assert s[i..i + 2] == [s[i], s[i + 1]] == s[i..][..2];
    if WellFormedAt(s, i) == 0 {
      var b := DecodeUnit(u, NoLead).0;
      assert s[i..][..|b|][0] == s[i];
      OtherStart(b, rest, s[i..]);
    }
  }

  lemma {:induction false} ThreeCase(s: seq<Byte>, i: nat)
    requires i < |s| && !FourBytes(s, i) && ThreeBytes(s, i)
    ensures WellFormedAt(s, i) > 0 ==>
              WellFormedAt(s, i) == 3 &&
              Utf16ToUtf8(Utf8ToUtf16(s, i), NoLead) == s[i..i + 3] + Utf16ToUtf8(Utf8ToUtf16(s, i + 3), NoLead)
    ensures WellFormedAt(s, i) == 0 ==> Utf16ToUtf8(Utf8ToUtf16(s, i), NoLead) != s[i..]
  {
    hide Utf16ToUtf8, ThreeUnit, DecodeUnit;
    ThreeBack(s[i], s[i + 1], s[i + 2]);
    var u := ThreeUnit(s[i], s[i + 1], s[i + 2]);
    var rest := Utf16ToUtf8(Utf8ToUtf16(s, i + 3), NoLead);
    DecodeConcat([u], Utf8ToUtf16(s, i + 3), NoLead);
    assert s[i..i + 3] == [s[i], s[i + 1], s[i + 2]] == s[i..][..3];
    if 0xD800 <= u <= 0xDFFF {
      NeverProduced(Utf8ToUtf16(s, i), NoLead);
      assert SurrogateStart(s[i..]);
    } else if WellFormedAt(s, i) == 0 {
      var b := DecodeUnit(u, NoLead).0;
      assert s[i..][..|b|][0] == s[i];
      OtherStart(b, rest, s[i..]);
    }
  }

  lemma {:induction false} FourCase(s: seq<Byte>, i: nat)
    requires i < |s| && FourBytes(s, i)
    ensures WellFormedAt(s, i) > 0 ==>
              WellFormedAt(s, i) == 4 &&
              Utf16ToUtf8(Utf8ToUtf16(s, i), NoLead) == s[i..i + 4] + Utf16ToUtf8(Utf8ToUtf16(s, i + 4), NoLead)
    ensures WellFormedAt(s, i) == 0 ==> Utf16ToUtf8(Utf8ToUtf16(s, i), NoLead) != s[i..]
  {
    hide Utf16ToUtf8, DecodeUnit, FourOf, Supplement, CodePoint;
    SupplementOf(s[i], s[i + 1], s[i + 2], s[i + 3]);
    var units := UnitsAt(s, i).0;
    var cp := CodePoint(s[i], s[i + 1], s[i + 2], s[i + 3]);
    var w := Supplement(s[i], s[i + 1], s[i + 2], s[i + 3]);
    var rest := Utf8ToUtf16(s, i + 4);
    if WellFormedAt(s, i) > 0 {
      WellFormedFour(s[i], s[i + 1], s[i + 2], s[i + 3]);
    }
    assert s[i..i + 4] == [s[i], s[i + 1], s[i + 2], s[i + 3]] == s[i..][..4];
    if 0x1_0000 <= cp <= 0x10_FFFF {
      PairBack(cp, w);
      DecodePair(units, rest, NoLead);
      FourBack(s[i], s[i + 1], s[i + 2], s[i + 3]);
      if WellFormedAt(s, i) == 0 {
        assert [] + FourOf(cp) == FourOf(cp);
        OtherStart(FourOf(cp), Utf16ToUtf8(rest, NoLead), s[i..]);
      }
    } else if cp < 0x1_0000 {
      OverlongWrong(cp, w);
      DecodeConcat([units[0]], [units[1]] + rest, NoLead);
      assert units + rest == [units[0]] + ([units[1]] + rest);
      assert s[i..][..3][0] == s[i];
      OtherStart(DecodeUnit(units[0], NoLead).0, Utf16ToUtf8([units[1]] + rest, DecodeUnit(units[0], NoLead).1), s[i..]);
    } else {
      BeyondWrong(cp, w);
      BeyondMarks(s[i], s[i + 1], s[i + 2], s[i + 3]);
      NeverProduced(Utf8ToUtf16(s, i), NoLead);
      assert BeyondStart(s[i..]);
    }
  }

  /** A string survives the two conversions exactly when it is well-formed UTF-8. */
  lemma {:induction false} RoundTrip(s: seq<Byte>, i: nat)
    requires i <= |s|
    ensures Utf16ToUtf8(Utf8ToUtf16(s, i), NoLead) == s[i..] <==> WellFormed(s, i)
    decreases |s| - i
  {
    hide Utf16ToUtf8, WellFormedAt, UnitsAt;
    if i == |s| {
      NothingBack(s);
    } else {
      SequenceBack(s, i);
      var n := WellFormedAt(s, i);
      if n > 0 {
        RoundTrip(s, i + n);
        var rest := Utf16ToUtf8(Utf8ToUtf16(s, i + n), NoLead);
        assert s[i..] == s[i..i + n] + s[i + n..];
        assert (s[i..i + n] + rest)[n..] == rest && s[i..][n..] == s[i + n..];
      }
    }
  }

  lemma NothingBack(s: seq<Byte>)
    ensures Utf16ToUtf8(Utf8ToUtf16(s, |s|), NoLead) == []
  {
  }
}
