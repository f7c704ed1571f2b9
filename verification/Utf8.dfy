/** Well-formed UTF-8 (RFC 3629), which Rust's read_line demands of every line. */
module Utf8 {

  predicate Between(c: char, lo: int, hi: int) {
    lo <= c as int <= hi
  }

  predicate Continues(s: string, i: nat) {
    i < |s| && Between(s[i], 0x80, 0xBF)
  }

  /** The length of the well-formed code point at the front, 0 when there is none. */
  function Width(s: string): (w: nat)
    ensures w <= |s|
  {
    if s == "" then 0
    else if Between(s[0], 0x00, 0x7F) then 1
    else if |s| == 1 then 0
    else if Between(s[0], 0xC2, 0xDF) && Continues(s, 1) then 2
    else if |s| == 2 || !Continues(s, 2) then 0
    else if (s[0] as int == 0xE0 && Between(s[1], 0xA0, 0xBF))
         || (s[0] as int == 0xED && Between(s[1], 0x80, 0x9F))
         || ((Between(s[0], 0xE1, 0xEC) || Between(s[0], 0xEE, 0xEF)) && Continues(s, 1)) then 3
    else if |s| == 3 || !Continues(s, 3) then 0
    else if (s[0] as int == 0xF0 && Between(s[1], 0x90, 0xBF))
         || (s[0] as int == 0xF4 && Between(s[1], 0x80, 0x8F))
         || (Between(s[0], 0xF1, 0xF3) && Continues(s, 1)) then 4
    else 0
  }

  predicate Valid(s: string)
    decreases |s|
  {
    s == "" || (Width(s) > 0 && Valid(s[Width(s)..]))
  }

  lemma {:induction false} ValidAppend(a: string, b: string)
    requires Valid(a) && Valid(b)
    ensures Valid(a + b)
    decreases |a|
  {
    hide *;
    Unfold(a);
    if a == "" {
      assert a + b == b;
    } else {
      var w := Width(a);
      WidthStable(a, b);
      ValidAppend(a[w..], b);
      Drop(a, b, w);
      Unfold(a + b);
    }
  }

  lemma Unfold(s: string)
    ensures Valid(s) <==> s == "" || (Width(s) > 0 && Valid(s[Width(s)..]))
  {
  }

  lemma Drop(a: string, b: string, w: nat)
    requires w <= |a|
    ensures (a + b)[w..] == a[w..] + b
  {
  }

  lemma WidthStable(a: string, b: string)
    requires Width(a) > 0
    ensures Width(a + b) == Width(a)
  {
  }

  predicate Ascii(s: string) {
    forall i :: 0 <= i < |s| ==> s[i] as int < 0x80
  }

  lemma {:induction false} AsciiValid(s: string)
    requires Ascii(s)
    ensures Valid(s)
    decreases |s|
  {
    if s != "" {
      AsciiValid(s[1..]);
    }
  }

  // ---------------------------------------------------------------- the encoding

  /** The code points that may be encoded: no surrogates. */
  predicate Scalar(p: nat) {
    p <= 0x10FFFF && !(0xD800 <= p <= 0xDFFF)
  }

  function Byte(b: nat): char
    requires b < 0x100
  {
    b as char
  }

  function Tail(p: nat): char {
    Byte(0x80 + p % 0x40)
  }

  /** The bytes of a code point. */
  function Encode(p: nat): (s: string)
    requires Scalar(p)
    ensures s != ""
  {
    if p < 0x80 then [Byte(p)]
    else if p < 0x800 then [Byte(0xC0 + p / 0x40), Tail(p)]
    else if p < 0x10000 then [Byte(0xE0 + p / 0x1000), Tail(p / 0x40), Tail(p)]
    else [Byte(0xF0 + p / 0x40000), Tail(p / 0x1000), Tail(p / 0x40), Tail(p)]
  }

  predicate Scalars(ps: seq<nat>) {
    forall i :: 0 <= i < |ps| ==> Scalar(ps[i])
  }

  function EncodeAll(ps: seq<nat>): string
    requires Scalars(ps)
  {
    if ps == [] then "" else Encode(ps[0]) + EncodeAll(ps[1..])
  }

  lemma EncodeWidth(p: nat, rest: string)
    requires Scalar(p)
    ensures Width(Encode(p) + rest) == |Encode(p)|
  {
    var s := Encode(p) + rest;
    assert forall i :: 0 <= i < |Encode(p)| ==> s[i] == Encode(p)[i];
  }

  function Low(c: char): nat {
    c as nat % 0x40
  }

  /** The code point at the front of well-formed bytes. */
  function Front(s: string): nat
    requires Width(s) > 0
  {
    match Width(s)
    case 1 => s[0] as nat
    case 2 => s[0] as nat % 0x20 * 0x40 + Low(s[1])
    case 3 => s[0] as nat % 0x10 * 0x1000 + Low(s[1]) * 0x40 + Low(s[2])
    case _ => s[0] as nat % 0x08 * 0x40000 + Low(s[1]) * 0x1000 + Low(s[2]) * 0x40 + Low(s[3])
  }

  /** A last byte and what precedes it come back. */
  lemma LastByte(high: nat, b: nat)
    requires 0x80 <= b <= 0xBF
    ensures var p := high * 0x40 + b % 0x40;
            p / 0x40 == high && 0x80 + p % 0x40 == b
  {
  }

  lemma SplitPoint(p: nat)
    ensures p / 0x1000 == p / 0x40 / 0x40 && p / 0x40000 == p / 0x40 / 0x40 / 0x40
  {
  }

  lemma TwoBytes(s: string)
    requires Width(s) == 2
    ensures Scalar(Front(s)) && Encode(Front(s)) == s[..2]
  {
    LastByte(s[0] as nat % 0x20, s[1] as nat);
  }

  lemma ThreeBytes(s: string)
    requires Width(s) == 3
    ensures Scalar(Front(s)) && Encode(Front(s)) == s[..3]
  {
    var a, b, c := s[0] as nat, s[1] as nat, s[2] as nat;
    var high := a % 0x10 * 0x40 + b % 0x40;
    ThirdRange(a, b, c);
    LastByte(a % 0x10, b);
    LastByte(high, c);
    SplitPoint(Front(s));
    assert Front(s) == high * 0x40 + c % 0x40;
    assert Tail(Front(s) / 0x40) == s[1] && Tail(Front(s)) == s[2];
  }

  lemma ThirdRange(a: nat, b: nat, c: nat)
    requires 0xE0 <= a <= 0xEF && 0x80 <= b <= 0xBF && 0x80 <= c <= 0xBF
    requires a == 0xE0 ==> b >= 0xA0
    requires a == 0xED ==> b <= 0x9F
    ensures var p := (a % 0x10 * 0x40 + b % 0x40) * 0x40 + c % 0x40;
            0x800 <= p < 0x10000 && Scalar(p)
  {
  }

  function FourPoint(a: nat, b: nat, c: nat, d: nat): nat {
    ((a % 0x08 * 0x40 + b % 0x40) * 0x40 + c % 0x40) * 0x40 + d % 0x40
  }

  lemma FourBack(a: nat, b: nat, c: nat, d: nat)
    requires 0xF0 <= a <= 0xF4 && 0x80 <= b <= 0xBF && 0x80 <= c <= 0xBF && 0x80 <= d <= 0xBF
    ensures var p := FourPoint(a, b, c, d);
            && 0xF0 + p / 0x40000 == a && 0x80 + p / 0x1000 % 0x40 == b
            && 0x80 + p / 0x40 % 0x40 == c && 0x80 + p % 0x40 == d
  {
    var first := a % 0x08 * 0x40 + b % 0x40;
    var second := first * 0x40 + c % 0x40;
    LastByte(a % 0x08, b);
    LastByte(first, c);
    LastByte(second, d);
    SplitPoint(FourPoint(a, b, c, d));
  }

  lemma FrontOfFour(s: string)
    requires Width(s) == 4
    ensures var a, b, c, d := s[0] as nat, s[1] as nat, s[2] as nat, s[3] as nat;
            && 0xF0 <= a <= 0xF4 && 0x80 <= b <= 0xBF && 0x80 <= c <= 0xBF && 0x80 <= d <= 0xBF
            && (a == 0xF0 ==> b >= 0x90) && (a == 0xF4 ==> b <= 0x8F)
            && Front(s) == FourPoint(a, b, c, d)
  {
  }

  lemma FourBytes(s: string)
    requires Width(s) == 4
    ensures Scalar(Front(s)) && Encode(Front(s)) == s[..4]
  {
    var a, b, c, d := s[0] as nat, s[1] as nat, s[2] as nat, s[3] as nat;
    FrontOfFour(s);
    hide Width;
    hide Front;
    FourthRange(a, b, c, d);
    FourBack(a, b, c, d);
    hide FourPoint;
  }

  lemma FourthRange(a: nat, b: nat, c: nat, d: nat)
    requires 0xF0 <= a <= 0xF4 && 0x80 <= b <= 0xBF && 0x80 <= c <= 0xBF && 0x80 <= d <= 0xBF
    requires a == 0xF0 ==> b >= 0x90
    requires a == 0xF4 ==> b <= 0x8F
    ensures 0x10000 <= FourPoint(a, b, c, d) <= 0x10FFFF
  {
  }

  lemma FrontEncodes(s: string)
    requires Width(s) > 0
    ensures Scalar(Front(s)) && Encode(Front(s)) == s[..Width(s)]
  {
    WidthAtMostFour(s);
    hide Front;
    hide Encode;
    match Width(s) {
      case 1 => OneByte(s);
      case 2 => TwoBytes(s);
      case 3 => ThreeBytes(s);
      case _ => FourBytes(s);
    }
  }

  lemma OneByte(s: string)
    requires Width(s) == 1
    ensures Scalar(Front(s)) && Encode(Front(s)) == s[..1]
  {
  }

  lemma WidthAtMostFour(s: string)
    ensures Width(s) <= 4
  {
  }

  /** Well formed are exactly the encodings of code points. */
  lemma ValidExactly(s: string)
    ensures Valid(s) <==> exists ps :: Scalars(ps) && EncodeAll(ps) == s
  {
    if Valid(s) {
      var ps := Decoded(s);
    }
    if ps :| Scalars(ps) && EncodeAll(ps) == s {
      EncodedValid(ps);
    }
  }

  lemma {:induction false} Decoded(s: string) returns (ps: seq<nat>)
    requires Valid(s)
    ensures Scalars(ps) && EncodeAll(ps) == s
    decreases |s|
  {
    hide Width;
    hide Encode;
    hide Scalar;
    ps := [];
    if s != "" {
      FrontEncodes(s);
      var rest := Decoded(s[Width(s)..]);
      ps := [Front(s)] + rest;
      assert ps[1..] == rest;
    }
  }

  lemma {:induction false} EncodedValid(ps: seq<nat>)
    requires Scalars(ps)
    ensures Valid(EncodeAll(ps))
  {
    hide Width;
    hide Encode;
    hide Scalar;
    if ps != [] {
      var rest := EncodeAll(ps[1..]);
      EncodeWidth(ps[0], rest);
      EncodedValid(ps[1..]);
      assert (Encode(ps[0]) + rest)[|Encode(ps[0])|..] == rest;
    }
  }
}
