/**
 * The numeric engine behind the calculator. JavaScript BigInt values are
 * unbounded integers, so they are Dafny `int`s; this module gives their text
 * conversions (BigInt.prototype.toString(radix), the BigInt(text)
 * constructor, the calculator's parseInput and its hex and binary display
 * texts) and the two BigInt operators whose Dafny counterparts differ:
 * division, which truncates toward zero, and the bitwise operators, which
 * act on an unbounded two's-complement representation.
 */
module Numerals {
  import opened Wrappers
  import opened Text

  // ---------------------------------------------------------------------
  // Digits and radix text
  // ---------------------------------------------------------------------

  /** The value of a digit character in radix up to 16 (either letter case), or -1. */
  function DigitValue(c: char): (v: int)
    ensures -1 <= v < 16
    ensures 0 <= v ==> !IsSpace(c) && c != '-' && c != '+' && c != '.'
    ensures 0 <= v < 10 <==> '0' <= c <= '9'
  {
    if '0' <= c <= '9' then c as int - '0' as int
    else if 'A' <= c <= 'F' then c as int - 'A' as int + 10
    else if 'a' <= c <= 'f' then c as int - 'a' as int + 10
    else -1
  }

  /** The upper-case digit character of d, as toString(16).toUpperCase() writes it. */
  function DigitChar(d: int): (c: char)
    requires 0 <= d < 16
    ensures DigitValue(c) == d
    ensures d < 10 ==> '0' <= c <= '9'
    ensures 10 <= d ==> 'A' <= c <= 'F'
  {
    if d < 10 then ('0' as int + d) as char else ('A' as int + d - 10) as char
  }

  /** Every character of s is a digit of the given radix. */
  predicate IsDigits(s: string, radix: nat)
  {
    forall i :: 0 <= i < |s| ==> 0 <= DigitValue(s[i]) < radix
  }

  /** The number a string of digits denotes, most significant digit first. */
  function ValueOf(s: string, radix: nat): nat
    requires IsDigits(s, radix)
  {
    if s == [] then 0 else ValueOf(s[..|s| - 1], radix) * radix + DigitValue(s[|s| - 1])
  }

  /**
   * The digits of a non-negative value in the given radix, upper case:
   * never empty, no leading zero, and denoting n again.
   */
  function Digits(n: nat, radix: nat): (r: string)
    requires 2 <= radix <= 16
    ensures |r| >= 1 && IsDigits(r, radix)
    ensures ValueOf(r, radix) == n
    ensures r[0] == '0' ==> n == 0 && |r| == 1
    ensures forall i :: 0 <= i < |r| ==> '0' <= r[i] <= '9' || 'A' <= r[i] <= 'F'
  {
    if n < radix then [DigitChar(n)]
    else
      var q, d := n / radix, n % radix;
      DivMod(n, radix);
      var r := Digits(q, radix) + [DigitChar(d)];
      assert r[..|r| - 1] == Digits(q, radix);
      r
  }

  lemma DivMod(n: nat, radix: nat)
    requires 2 <= radix
    ensures n == (n / radix) * radix + n % radix && 0 <= n % radix < radix
    ensures n >= radix ==> 1 <= n / radix < n
  {
  }

  /** BigInt.prototype.toString(radix), upper-cased: a minus sign, then the digits of the magnitude. */
  function ToRadix(v: int, radix: nat): string
    requires 2 <= radix <= 16
  {
    if v < 0 then "-" + Digits(-v, radix) else Digits(v, radix)
  }

  /** The canonical decimal text of v, BigInt.prototype.toString(). */
  function DecimalText(v: int): string
  {
    ToRadix(v, 10)
  }

  // ---------------------------------------------------------------------
  // Parsing: BigInt(text) and the calculator's parseInput
  // ---------------------------------------------------------------------

  /**
   * The BigInt(text) constructor (StringToBigInt): surrounding whitespace is
   * ignored, the empty text is 0, a 0x/0o/0b prefix (either case) selects an
   * unsigned hexadecimal, octal or binary literal, and otherwise an optional
   * sign precedes decimal digits. None stands for the SyntaxError thrown on
   * any other text.
   */
  function BigIntOf(text: string): Option<int>
  {
    var t := Trim(text);
    if t == [] then Some(0)
    else if |t| >= 2 && t[0] == '0' && (LowerAscii(t[1]) == 'x' || LowerAscii(t[1]) == 'o' || LowerAscii(t[1]) == 'b') then
      var radix := if LowerAscii(t[1]) == 'x' then 16 else if LowerAscii(t[1]) == 'o' then 8 else 2;
      var ds := t[2..];
      if ds != [] && IsDigits(ds, radix) then Some(ValueOf(ds, radix)) else None
    else if t[0] == '-' || t[0] == '+' then
      var ds := t[1..];
      if ds != [] && IsDigits(ds, 10) then
        var magnitude: int := ValueOf(ds, 10);
        Some(if t[0] == '-' then -magnitude else magnitude)
      else None
    else if IsDigits(t, 10) then Some(ValueOf(t, 10))
    else None
  }

  /**
   * The calculator's parseInput: text starting with 0x or 0X is read as
   * hexadecimal; other text is handed to BigInt. None stands for a thrown
   * exception. Text containing '.' takes the floating-point branch, which
   * is not modelled and is reported as None.
   */
  function ParseInput(s: string): Option<int>
  {
    if StartsWith(s, "0x") || StartsWith(s, "0X") then BigIntOf("0x" + s[2..])
    else if '.' in s then None
    else BigIntOf(s)
  }

  /** Decimal digits are the characters '0' to '9'. */
  lemma DecimalDigitChars(ds: string)
    requires IsDigits(ds, 10)
    ensures forall i :: 0 <= i < |ds| ==> '0' <= ds[i] <= '9'
  {
    forall i | 0 <= i < |ds| ensures '0' <= ds[i] <= '9' {
      assert 0 <= DigitValue(ds[i]) < 10;
    }
  }

  /** BigInt reads an unsigned decimal numeral without a radix prefix as its value. */
  lemma BigIntOfDigits(ds: string)
    requires ds != [] && IsDigits(ds, 10)
    ensures BigIntOf(ds) == Some(ValueOf(ds, 10))
  {
    DecimalDigitChars(ds);
    assert IsTrimmed(ds);
    TrimmedIsFixed(ds);
    assert ds[0] != '-' && ds[0] != '+';
    if |ds| >= 2 {
      assert '0' <= ds[1] <= '9';
    }
  }

  /** BigInt reads a minus sign and a decimal numeral as the negated value. */
  lemma BigIntOfNegative(ds: string)
    requires ds != [] && IsDigits(ds, 10)
    ensures BigIntOf("-" + ds) == Some(-(ValueOf(ds, 10) as int))
  {
    var s := "-" + ds;
    DecimalDigitChars(ds);
    assert s[|s| - 1] == ds[|ds| - 1];
    assert IsTrimmed(s);
    TrimmedIsFixed(s);
    assert Trim(s) == s && s[0] == '-' && s[1..] == ds;
  }

  /** Decimal text written by toString is read back by parseInput as the same value. */
  lemma DecimalRoundTrip(v: int)
    ensures ParseInput(DecimalText(v)) == Some(v)
  {
    var s := DecimalText(v);
    var ds := Digits(if v < 0 then -v else v, 10);
    DecimalDigitChars(ds);
    assert !StartsWith(s, "0x") && !StartsWith(s, "0X") by {
      if |s| >= 2 {
        assert s[1] == ds[if v < 0 then 0 else 1];
      }
    }
    assert '.' !in s by {
      forall i | 0 <= i < |s| ensures s[i] != '.' {
        if v >= 0 || i > 0 { assert s[i] == ds[if v < 0 then i - 1 else i]; }
      }
    }
    if v < 0 {
      BigIntOfNegative(ds);
    } else {
      BigIntOfDigits(ds);
    }
  }

  /** The calculator's main display: "0x" followed by toString(16) upper-cased. */
  function HexText(v: int): string
  {
    "0x" + ToRadix(v, 16)
  }

  /**
   * The hex display text parses back to the value exactly when the value is
   * non-negative; for a negative value the text has the form "0x-…" and
   * parseInput throws.
   */
  lemma HexRoundTrip(v: int)
    ensures ParseInput(HexText(v)) == if v >= 0 then Some(v) else None
  {
    var s := HexText(v);
    var ds := ToRadix(v, 16);
    HexTextRead(v);
    assert s[2..] == ds;
    if v < 0 {
      assert ds[0] == '-';
      assert !IsDigits(ds, 16);
    } else {
      assert ds == Digits(v, 16);
    }
  }

  /** parseInput hands the hex display text, unchanged by trimming, to BigInt's hexadecimal branch. */
  lemma HexTextRead(v: int)
    ensures var s := HexText(v);
      ParseInput(s) == BigIntOf(s) && Trim(s) == s && |s| >= 3 && s[0] == '0' && LowerAscii(s[1]) == 'x'
  {
    var s := HexText(v);
    var mag := Digits(if v < 0 then -v else v, 16);
    assert s[..2] == "0x";
    assert StartsWith(s, "0x");
    assert "0x" + s[2..] == s;
    assert IsTrimmed(s) by {
      assert s[|s| - 1] == mag[|mag| - 1];
      assert DigitValue(mag[|mag| - 1]) >= 0;
    }
    TrimmedIsFixed(s);
  }

  // ---------------------------------------------------------------------
  // The 32-bit binary sub-display
  // ---------------------------------------------------------------------

  const TwoTo32: int := 0x1_0000_0000

  /** BigInt.asUintN(32, v): v reduced modulo 2^32 into [0, 2^32). */
  function AsUint32(v: int): (r: int)
    ensures 0 <= r < TwoTo32
    ensures 0 <= v < TwoTo32 ==> r == v
    ensures (v - r) % TwoTo32 == 0
  {
    v % TwoTo32
  }

  /** The binary digits the display starts from: toString(2) of the value, or of its 32-bit pattern when negative. */
  function BinaryDigits(v: int): string
  {
    if v >= 0 then Digits(v, 2) else Digits(AsUint32(v), 2)
  }

  /** String.prototype.padStart(n, c) with a one-character pad. */
  function PadStart(s: string, n: nat, c: char): (r: string)
    ensures |s| < n ==> |r| == n && r[n - |s|..] == s && forall i :: 0 <= i < n - |s| ==> r[i] == c
    ensures |s| >= n ==> r == s
  {
    if |s| >= n then s else seq(n - |s|, _ => c) + s
  }

  /** s.replace(/(.{8})/g, '$1 '): a space after every complete group of eight characters. */
  function GroupBy8(s: string): string
  {
    if |s| < 8 then s else s[..8] + " " + GroupBy8(s[8..])
  }

  /** The binary sub-display: the digits padded to 32, grouped by eight, trimmed. */
  function BinaryText(v: int): string
  {
    Trim(GroupBy8(PadStart(BinaryDigits(v), 32, '0')))
  }

  /** s with every whitespace character removed. */
  function RemoveSpaces(s: string): string
  {
    if s == [] then [] else (if IsSpace(s[0]) then [] else [s[0]]) + RemoveSpaces(s[1..])
  }

  function Pow2(k: nat): nat
  {
    if k == 0 then 1 else 2 * Pow2(k - 1)
  }

  lemma {:induction false} Pow2Add(a: nat, b: nat)
    ensures Pow2(a + b) == Pow2(a) * Pow2(b)
  {
    if a > 0 {
      Pow2Add(a - 1, b);
      assert Pow2(a + b) == 2 * Pow2(a - 1 + b);
    }
  }

  lemma Pow2Of32()
    ensures Pow2(32) == TwoTo32
  {
    assert Pow2(2) == 4;
    assert Pow2(4) == 16;
    Pow2Add(4, 4);
    Pow2Add(8, 8);
    Pow2Add(16, 16);
  }

  /** A value below 2^k has at most k binary digits. */
  lemma {:induction false} BinaryDigitsFit(n: nat, k: nat)
    requires 1 <= k && n < Pow2(k)
    ensures |Digits(n, 2)| <= k
  {
    assert Pow2(1) == 2;
    if n >= 2 {
      assert k >= 2;
      BinaryDigitsFit(n / 2, k - 1);
    }
  }

  /** A value of at least 2^k has more than k binary digits. */
  lemma {:induction false} BinaryDigitsLong(n: nat, k: nat)
    requires n >= Pow2(k)
    ensures |Digits(n, 2)| > k
  {
    if k > 0 {
      BinaryDigitsLong(n / 2, k - 1);
    }
  }

  lemma {:induction false} RemoveSpacesAppend(a: string, b: string)
    ensures RemoveSpaces(a + b) == RemoveSpaces(a) + RemoveSpaces(b)
  {
    if a == [] {
      assert a + b == b;
    } else {
      var head := if IsSpace(a[0]) then [] else [a[0]];
      assert (a + b)[0] == a[0];
      assert (a + b)[1..] == a[1..] + b;
      assert RemoveSpaces(a + b) == head + RemoveSpaces(a[1..] + b);
      RemoveSpacesAppend(a[1..], b);
      assert RemoveSpaces(a) == head + RemoveSpaces(a[1..]);
    }
  }

  lemma {:induction false} RemoveSpacesOfSpaces(s: string)
    requires forall i :: 0 <= i < |s| ==> IsSpace(s[i])
    ensures RemoveSpaces(s) == []
  {
    if s != [] {
      RemoveSpacesOfSpaces(s[1..]);
    }
  }

  lemma {:induction false} RemoveSpacesOfWord(s: string)
    requires forall i :: 0 <= i < |s| ==> !IsSpace(s[i])
    ensures RemoveSpaces(s) == s
  {
    if s != [] {
      RemoveSpacesOfWord(s[1..]);
    }
  }

  lemma {:induction false} RemoveSpacesOfTrimStart(s: string)
    ensures RemoveSpaces(TrimStart(s)) == RemoveSpaces(s)
  {
    if s != [] && IsSpace(s[0]) {
      RemoveSpacesOfTrimStart(s[1..]);
    }
  }

  lemma {:induction false} RemoveSpacesOfTrimEnd(s: string)
    ensures RemoveSpaces(TrimEnd(s)) == RemoveSpaces(s)
  {
    if s != [] && IsSpace(s[|s| - 1]) {
      var init := s[..|s| - 1];
      RemoveSpacesOfTrimEnd(init);
      assert s == init + [s[|s| - 1]];
      RemoveSpacesAppend(init, [s[|s| - 1]]);
      assert RemoveSpaces([s[|s| - 1]]) == [];
    }
  }

  /** Trimming only removes whitespace. */
  lemma RemoveSpacesOfTrim(s: string)
    ensures RemoveSpaces(Trim(s)) == RemoveSpaces(s)
  {
    RemoveSpacesOfTrimStart(s);
    RemoveSpacesOfTrimEnd(TrimStart(s));
  }

  /** Grouping inserts only spaces between the characters of a text without whitespace. */
  lemma {:induction false} RemoveSpacesOfGroups(s: string)
    requires forall i :: 0 <= i < |s| ==> !IsSpace(s[i])
    ensures RemoveSpaces(GroupBy8(s)) == s
  {
    if |s| < 8 {
      RemoveSpacesOfWord(s);
    } else {
      RemoveSpacesAppend(s[..8] + " ", GroupBy8(s[8..]));
      RemoveSpacesAppend(s[..8], " ");
      RemoveSpacesOfWord(s[..8]);
      RemoveSpacesOfGroups(s[8..]);
      assert s[..8] + s[8..] == s;
    }
  }

  /** Leading zeros do not change the value of a digit string. */
  lemma {:induction false} LeadingZeros(m: nat, s: string, radix: nat)
    requires IsDigits(s, radix) && radix >= 2
    ensures IsDigits(seq(m, _ => '0') + s, radix)
    ensures ValueOf(seq(m, _ => '0') + s, radix) == ValueOf(s, radix)
  {
    var z := seq(m, _ => '0');
    var zs := z + s;
    assert IsDigits(zs, radix) by {
      forall i | 0 <= i < |zs| ensures 0 <= DigitValue(zs[i]) < radix {
        if i >= m { assert zs[i] == s[i - m]; }
      }
    }
    if s == [] {
      assert zs == z;
      if m > 0 {
        assert zs[..m - 1] == seq(m - 1, _ => '0') + [];
        LeadingZeros(m - 1, [], radix);
        assert DigitValue(zs[m - 1]) == 0;
      }
    } else {
      assert zs[..|zs| - 1] == z + s[..|s| - 1];
      LeadingZeros(m, s[..|s| - 1], radix);
    }
  }

  /**
   * With its spaces removed, the binary sub-display is exactly the binary
   * digits padded to 32: trimming and grouping only ever add or drop spaces.
   */
  lemma BinaryTextDigits(v: int)
    ensures RemoveSpaces(BinaryText(v)) == PadStart(BinaryDigits(v), 32, '0')
  {
    var p := PadStart(BinaryDigits(v), 32, '0');
    assert forall i :: 0 <= i < |p| ==> !IsSpace(p[i]) by {
      var b := BinaryDigits(v);
      forall i | 0 <= i < |p| ensures !IsSpace(p[i]) {
        if |b| < 32 && i < 32 - |b| {
          assert p[i] == '0';
        } else {
          assert p[i] == b[i - (|p| - |b|)];
        }
      }
    }
    RemoveSpacesOfTrim(GroupBy8(p));
    RemoveSpacesOfGroups(p);
  }

  /** Below 2^32 the padded binary digits are exactly 32 and denote the value modulo 2^32. */
  lemma PaddedBits(v: int)
    requires v < TwoTo32
    ensures var p := PadStart(BinaryDigits(v), 32, '0');
      |p| == 32 && IsDigits(p, 2) && ValueOf(p, 2) == AsUint32(v)
  {
    var u := AsUint32(v);
    var b := BinaryDigits(v);
    assert b == Digits(u, 2);
    Pow2Of32();
    BinaryDigitsFit(u, 32);
    PaddedDigits(b);
  }

  /** Padding a binary digit string of at most 32 digits to 32 keeps it a digit string of the same value. */
  lemma PaddedDigits(b: string)
    requires |b| <= 32 && IsDigits(b, 2)
    ensures var p := PadStart(b, 32, '0');
      |p| == 32 && IsDigits(p, 2) && ValueOf(p, 2) == ValueOf(b, 2)
  {
    LeadingZeros(32 - |b|, b, 2);
    var z := seq(32 - |b|, _ => '0');
    assert PadStart(b, 32, '0') == z + b;
  }

  /** GroupBy8 on a text of at least eight characters: the first group, a space, then the rest grouped. */
  lemma GroupByFirst(s: string)
    requires |s| >= 8
    ensures GroupBy8(s) == s[..8] + " " + GroupBy8(s[8..])
  {
  }

  /** Four groups each followed by a space are the four groups joined by spaces, then a space. */
  lemma JoinedGroups(a: string, b: string, c: string, d: string)
    ensures a + " " + (b + " " + (c + " " + (d + " "))) == (a + " " + b + " " + c + " " + d) + " "
  {
  }

  /** GroupBy8 on thirty-two characters: four groups of eight, each followed by a space. */
  lemma GroupsOfThirtyTwo(p: string)
    requires |p| == 32
    ensures GroupBy8(p) == (p[..8] + " " + p[8..16] + " " + p[16..24] + " " + p[24..]) + " "
  {
    var a, b, c, d := p[..8], p[8..16], p[16..24], p[24..];
    GroupByFirst(p[24..]);
    assert p[24..][..8] == d && p[24..][8..] == [];
    var g3 := d + " ";
    assert GroupBy8(p[24..]) == g3;
    GroupByFirst(p[16..]);
    assert p[16..][..8] == c && p[16..][8..] == p[24..];
    var g2 := c + " " + g3;
    assert GroupBy8(p[16..]) == g2;
    GroupByFirst(p[8..]);
    assert p[8..][..8] == b && p[8..][8..] == p[16..];
    var g1 := b + " " + g2;
    assert GroupBy8(p[8..]) == g1;
    GroupByFirst(p);
    assert GroupBy8(p) == a + " " + g1;
    JoinedGroups(a, b, c, d);
  }

  /** Thirty-two binary digits are grouped into four groups of eight, separated by single spaces. */
  lemma GroupedThirtyTwo(p: string)
    requires |p| == 32 && IsDigits(p, 2)
    ensures Trim(GroupBy8(p)) == p[..8] + " " + p[8..16] + " " + p[16..24] + " " + p[24..]
  {
    GroupsOfThirtyTwo(p);
    var body := p[..8] + " " + p[8..16] + " " + p[16..24] + " " + p[24..];
    assert IsTrimmed(body) by {
      assert body[0] == p[0] && body[34] == p[31];
      assert DigitValue(p[0]) >= 0 && DigitValue(p[31]) >= 0;
    }
    TrimTrailingSpace(body);
  }

  /**
   * For every value below 2^32 (so every negative one) the binary
   * sub-display is 35 characters: four groups of eight binary digits
   * separated by single spaces, and the 32 digits denote the value modulo
   * 2^32, its two's-complement pattern.
   */
  lemma BinaryTextLayout(v: int)
    requires v < TwoTo32
    ensures var r := BinaryText(v);
      && |r| == 35 && r[8] == ' ' && r[17] == ' ' && r[26] == ' '
      && IsDigits(r[..8] + r[9..17] + r[18..26] + r[27..], 2)
      && ValueOf(r[..8] + r[9..17] + r[18..26] + r[27..], 2) == AsUint32(v)
  {
    var p := PadStart(BinaryDigits(v), 32, '0');
    PaddedBits(v);
    GroupedThirtyTwo(p);
    SpacedGroups(p);
  }

  /** Thirty-two characters joined in groups of eight: 35 characters, spaces at 8, 17 and 26, the groups in order. */
  lemma SpacedGroups(p: string)
    requires |p| == 32
    ensures var r := p[..8] + " " + p[8..16] + " " + p[16..24] + " " + p[24..];
      && |r| == 35 && r[8] == ' ' && r[17] == ' ' && r[26] == ' '
      && r[..8] + r[9..17] + r[18..26] + r[27..] == p
  {
    var r := p[..8] + " " + p[8..16] + " " + p[16..24] + " " + p[24..];
    assert r[..8] == p[..8] && r[9..17] == p[8..16] && r[18..26] == p[16..24] && r[27..] == p[24..];
    assert p == p[..8] + p[8..16] + p[16..24] + p[24..];
  }

  /**
   * A non-negative value of 2^32 or more is not cut to 32 bits: with its
   * spaces removed the sub-display holds all of the value's binary digits,
   * more than 32 of them.
   */
  lemma BinaryTextWide(v: int)
    requires v >= TwoTo32
    ensures RemoveSpaces(BinaryText(v)) == Digits(v, 2)
    ensures |Digits(v, 2)| > 32
  {
    Pow2Of32();
    BinaryDigitsLong(v, 32);
    BinaryTextDigits(v);
  }

  // ---------------------------------------------------------------------
  // Division and bitwise operators on BigInt
  // ---------------------------------------------------------------------

  function Abs(x: int): nat
  {
    if x < 0 then -x else x
  }

  /** BigInt division: the quotient truncated toward zero. */
  function TruncDiv(a: int, b: int): int
    requires b != 0
  {
    if (a < 0) == (b < 0) then Abs(a) / Abs(b) else -(Abs(a) / Abs(b))
  }

  /**
   * TruncDiv is division truncated toward zero: the remainder is smaller
   * than the divisor in magnitude and is zero or has the sign of the
   * dividend (whereas Dafny's own `/` keeps the remainder non-negative).
   */
  lemma TruncDivIsTruncation(a: int, b: int)
    requires b != 0
    ensures var r := a - b * TruncDiv(a, b);
      Abs(r) < Abs(b) && (r == 0 || (r < 0) == (a < 0))
  {
    var x, y := Abs(a), Abs(b);
    var q: int, m := x / y, x % y;
    var p := y * q;
    assert x == p + m && 0 <= m < y;
    var t := TruncDiv(a, b);
    if a >= 0 && b > 0 {
      assert t == q && b == y;
      assert b * t == p;
    } else if a < 0 && b < 0 {
      assert t == q && b == -y;
      assert b * t == -p;
    } else if a >= 0 {
      assert t == -q && b == -y;
      assert b * t == p;
    } else {
      assert t == -q && b == y;
      assert b * t == -p;
    }
    assert a - b * t == if a < 0 then -m else m;
  }

  /** The three bitwise BigInt operators. */
  datatype BitOp = AndBits | OrBits | XorBits

  /** The operator on a single bit. */
  function Combine(op: BitOp, x: bool, y: bool): bool
  {
    match op
    case AndBits => x && y
    case OrBits => x || y
    case XorBits => x != y
  }

  /** Bit k of the unbounded two's-complement representation of x (floor halving). */
  function BitAt(x: int, k: nat): bool
    decreases k
  {
    if k == 0 then x % 2 == 1 else BitAt(x / 2, k - 1)
  }

  lemma HalvingShrinks(x: int)
    ensures Abs(x / 2) <= Abs(x)
    ensures x != 0 && x != -1 ==> Abs(x / 2) < Abs(x)
    ensures x == 0 || x == -1 ==> x / 2 == x
  {
  }

  /**
   * BigInt &, | and ^: bit by bit on two's-complement representations,
   * which are all-zero (for 0) or all-one (for -1) past the point where
   * both operands have been shifted down to 0 or -1.
   */
  function Bitwise(op: BitOp, a: int, b: int): int
    decreases Abs(a) + Abs(b)
  {
    if (a == 0 || a == -1) && (b == 0 || b == -1) then
      if Combine(op, a == -1, b == -1) then -1 else 0
    else
      HalvingShrinks(a);
      HalvingShrinks(b);
      2 * Bitwise(op, a / 2, b / 2) + (if Combine(op, a % 2 == 1, b % 2 == 1) then 1 else 0)
  }

  /** 0 has no bit set, -1 has every bit set. */
  lemma {:induction false} SignBits(x: int, k: nat)
    requires x == 0 || x == -1
    ensures BitAt(x, k) == (x == -1)
  {
    if k > 0 {
      SignBits(x / 2, k - 1);
    }
  }

  /** Each bit of a bitwise result is the operator applied to the operands' bits at that position. */
  lemma {:induction false} BitwiseBits(op: BitOp, a: int, b: int, k: nat)
    ensures BitAt(Bitwise(op, a, b), k) == Combine(op, BitAt(a, k), BitAt(b, k))
    decreases Abs(a) + Abs(b)
  {
    if (a == 0 || a == -1) && (b == 0 || b == -1) {
      SignBits(a, k);
      SignBits(b, k);
      SignBits(Bitwise(op, a, b), k);
    } else {
      HalvingShrinks(a);
      HalvingShrinks(b);
      var q := Bitwise(op, a / 2, b / 2);
      var low := if Combine(op, a % 2 == 1, b % 2 == 1) then 1 else 0;
      assert Bitwise(op, a, b) == 2 * q + low;
      assert (2 * q + low) / 2 == q && (2 * q + low) % 2 == low;
      if k > 0 {
        BitwiseBits(op, a / 2, b / 2, k - 1);
      }
    }
  }

  /** An integer is determined by its two's-complement bits. */
  lemma {:induction false} BitsDetermineValue(x: int, y: int)
    requires forall k: nat :: BitAt(x, k) == BitAt(y, k)
    ensures x == y
    decreases Abs(x) + Abs(y)
  {
    assert BitAt(x, 0) == BitAt(y, 0);
    if (x == 0 || x == -1) && (y == 0 || y == -1) {
    } else {
      HalvingShrinks(x);
      HalvingShrinks(y);
      forall k: nat ensures BitAt(x / 2, k) == BitAt(y / 2, k) {
        assert BitAt(x, k + 1) == BitAt(y, k + 1);
      }
      BitsDetermineValue(x / 2, y / 2);
    }
  }

  /**
   * Bitwise(op, a, b) is the one integer whose every bit is op applied to
   * the corresponding bits of a and b.
   */
  lemma BitwiseIsUnique(op: BitOp, a: int, b: int, c: int)
    requires forall k: nat :: BitAt(c, k) == Combine(op, BitAt(a, k), BitAt(b, k))
    ensures c == Bitwise(op, a, b)
  {
    forall k: nat ensures BitAt(c, k) == BitAt(Bitwise(op, a, b), k) {
      BitwiseBits(op, a, b, k);
    }
    BitsDetermineValue(c, Bitwise(op, a, b));
  }
}
