/**
  The `0xRRGGBB` text form of a colour: the parser the command line uses
  (`Rgb::from_str`) and the lowercase printer (`Display for Rgb`).

  The parser checks the prefix and the length in UTF-8 bytes, then hands the
  six remaining characters to `u32::from_str_radix(_, 16)`, which accepts a
  single leading `+`; the model keeps that behaviour.
 */
module RgbText {
  import opened Types

  // ---------------------------------------------------------------------
  // Characters.
  // ---------------------------------------------------------------------

  /** Number of bytes `ch` takes in UTF-8 (what Rust's `str::len` counts). */
  function Utf8Width(ch: char): nat {
    if ch as int < 0x80 then 1
    else if ch as int < 0x800 then 2
    else if ch as int < 0x1_0000 then 3
    else 4
  }

  /** Length of `s` in UTF-8 bytes. */
  function Utf8Len(s: string): nat {
    if s == [] then 0 else Utf8Width(s[0]) + Utf8Len(s[1..])
  }

  predicate IsAscii(s: string) {
    forall i :: 0 <= i < |s| ==> s[i] as int < 0x80
  }

  /** `char::to_digit(16)`: the value of a hexadecimal digit of either case. */
  function HexDigitValue(ch: char): Option<nat> {
    if '0' <= ch <= '9' then Some(ch as int - '0' as int)
    else if 'a' <= ch <= 'f' then Some(ch as int - 'a' as int + 10)
    else if 'A' <= ch <= 'F' then Some(ch as int - 'A' as int + 10)
    else None
  }

  predicate IsHexDigit(ch: char) {
    HexDigitValue(ch).Some?
  }

  predicate AllHexDigits(s: string) {
    forall i :: 0 <= i < |s| ==> IsHexDigit(s[i])
  }

  predicate IsLowerHexDigit(ch: char) {
    '0' <= ch <= '9' || 'a' <= ch <= 'f'
  }

  /** The lowercase digit for a value below 16 (`{:x}`). */
  function LowerHexDigit(v: nat): (ch: char)
    requires v < 16
    ensures IsLowerHexDigit(ch) && HexDigitValue(ch) == Some(v)
  {
    if v < 10 then ('0' as int + v) as char else ('a' as int + v - 10) as char
  }

  /** ASCII lowercase of a character; other characters are unchanged. */
  function ToLower(ch: char): char {
    if 'A' <= ch <= 'Z' then (ch as int - 'A' as int + 'a' as int) as char else ch
  }

  function ToLowerString(s: string): (t: string)
    ensures |t| == |s| && forall i :: 0 <= i < |s| ==> t[i] == ToLower(s[i])
  {
    seq(|s|, i requires 0 <= i < |s| => ToLower(s[i]))
  }

  // ---------------------------------------------------------------------
  // `u32::from_str_radix(_, 16)`.
  // ---------------------------------------------------------------------

  const U32Max: nat := 0xFFFF_FFFF

  /** The digit loop: left to right, multiply by 16 and add, failing on a
      non-digit or on u32 overflow. */
  function AccumulateHex(digits: string): (r: Option<nat>)
    ensures r.Some? ==> r.value <= U32Max
  {
    if digits == [] then Some(0)
    else
      match AccumulateHex(digits[..|digits| - 1])
      case None => None
      case Some(acc) =>
        match HexDigitValue(digits[|digits| - 1])
        case None => None
        case Some(d) => if acc * 16 + d > U32Max then None else Some(acc * 16 + d)
  }

  /** `u32::from_str_radix(src, 16)`: empty input and a lone sign are errors,
      one leading `+` is skipped, and a `-` is left in place to fail as a digit. */
  function FromStrRadix16(src: string): (r: Option<nat>)
    ensures var digits := Unsigned(src);
            r.Some? <==> digits != [] && AllHexDigits(digits) && HexValue(digits) <= U32Max
    ensures r.Some? ==> r.value == HexValue(Unsigned(src))
  {
    if src == [] then None
    else if (src[0] == '+' || src[0] == '-') && |src| == 1 then None
    else if src[0] == '+' then AccumulateExact(src[1..]); AccumulateHex(src[1..])
    else AccumulateExact(src); AccumulateHex(src)
  }

  /** What a hexadecimal number must consist of once one optional leading
      `+` is removed. */
  function Unsigned(src: string): string {
    if src != [] && src[0] == '+' then src[1..] else src
  }

  /** The value of a string of hexadecimal digits, without any width limit. */
  function HexValue(s: string): nat
    requires AllHexDigits(s)
  {
    if s == [] then 0 else HexValue(s[..|s| - 1]) * 16 + HexDigitValue(s[|s| - 1]).value
  }

  function Pow16(n: nat): (p: nat)
    ensures p >= 1
  {
    if n == 0 then 1 else 16 * Pow16(n - 1)
  }

  // ---------------------------------------------------------------------
  // Parse and print.
  // ---------------------------------------------------------------------

  /** `Rgb::from_str`: `0x` and exactly 8 bytes in all, then the red, green
      and blue bytes of the parsed number, most significant first. */
  function ParseRgb(s: string): (r: Option<Rgb>)
    ensures r.Some? ==> |s| >= 2 && s[..2] == "0x" && Utf8Len(s) == 8
  {
    if !(|s| >= 2 && s[..2] == "0x" && Utf8Len(s) == 8) then None
    else
      match FromStrRadix16(s[2..])
      case None => None
      case Some(color) =>
        var b := color % 0x100;
        var g := (color / 0x100) % 0x100;
        var r := (color / 0x1_0000) % 0x100;   // `as u8` after the second shift
        Some(Rgb(r, g, b))
  }

  /** Two lowercase digits of a byte (`{:02x}`). */
  function Hex2(x: Byte): (s: string)
    ensures |s| == 2 && IsLowerHexDigit(s[0]) && IsLowerHexDigit(s[1])
    ensures AllHexDigits(s) && HexValue(s) == x
  {
    var s := [LowerHexDigit(x / 16), LowerHexDigit(x % 16)];
    assert s[..1] == [s[0]] && [s[0]][..0] == [];
    assert HexValue(s[..1]) == x / 16;
    s
  }

  /** `Display for Rgb`: `0x` and six lowercase digits, red first. */
  function ShowRgb(c: Rgb): (s: string)
    ensures |s| == 8 && s[..2] == "0x"
    ensures forall i :: 2 <= i < 8 ==> IsLowerHexDigit(s[i])
  {
    "0x" + Hex2(c.r) + Hex2(c.g) + Hex2(c.b)
  }

  /** The texts `ParseRgb` accepts: `0x` then six hex digits, or `0x+` then five. */
  predicate AcceptedColorText(s: string) {
    && |s| == 8
    && s[..2] == "0x"
    && (AllHexDigits(s[2..]) || (s[2] == '+' && AllHexDigits(s[3..])))
  }

  // ---------------------------------------------------------------------
  // Lemmas about the digit loop.
  // ---------------------------------------------------------------------

  lemma {:induction false} Utf8LenOfAscii(s: string)
    requires IsAscii(s)
    ensures Utf8Len(s) == |s|
  {
    if s != [] {
      assert IsAscii(s[1..]) by {
        forall i | 0 <= i < |s[1..]| ensures s[1..][i] as int < 0x80 {
          assert s[1..][i] == s[i + 1];
        }
      }
      Utf8LenOfAscii(s[1..]);
    }
  }

  /** Below eight digits there is no overflow: the loop yields the plain value. */
  lemma {:induction false} AccumulateAllHex(s: string)
    requires AllHexDigits(s) && |s| <= 8
    ensures HexValue(s) < Pow16(|s|)
    ensures AccumulateHex(s) == Some(HexValue(s))
  {
    if s != [] {
      var init := s[..|s| - 1];
      assert AllHexDigits(init) by {
        forall i | 0 <= i < |init| ensures IsHexDigit(init[i]) {
          assert init[i] == s[i];
        }
      }
      AccumulateAllHex(init);
      assert Pow16(|s|) == 16 * Pow16(|init|);
      assert Pow16(|s|) <= Pow16(8) by { Pow16Monotone(|s|, 8); }
      assert Pow16(8) == U32Max + 1;
    }
  }

  /** The loop succeeds exactly on digit strings whose value fits in a u32,
      and then yields that value. */
  lemma {:induction false} AccumulateExact(s: string)
    ensures AccumulateHex(s) == if AllHexDigits(s) && HexValue(s) <= U32Max then Some(HexValue(s)) else None
  {
    if !AllHexDigits(s) {
      AccumulateRejectsNonHex(s);
    } else if s != [] {
      var init := s[..|s| - 1];
      assert AllHexDigits(init) by {
        forall i | 0 <= i < |init| ensures IsHexDigit(init[i]) {
          assert init[i] == s[i];
        }
      }
      AccumulateExact(init);
      assert HexValue(s) >= HexValue(init);
    }
  }

  lemma {:induction false} Pow16Monotone(m: nat, n: nat)
    requires m <= n
    ensures Pow16(m) <= Pow16(n)
  {
    if m < n {
      Pow16Monotone(m, n - 1);
    }
  }

  /** A non-digit anywhere makes the loop fail. */
  lemma {:induction false} AccumulateRejectsNonHex(s: string)
    requires !AllHexDigits(s)
    ensures AccumulateHex(s) == None
  {
    var init := s[..|s| - 1];
    if IsHexDigit(s[|s| - 1]) {
      assert !AllHexDigits(init) by {
        var k :| 0 <= k < |s| && !IsHexDigit(s[k]);
        assert k < |s| - 1;
        assert init[k] == s[k];
      }
      AccumulateRejectsNonHex(init);
    }
  }

  /** Digits read as a number: the value of a concatenation. */
  lemma {:induction false} HexValueAppend(a: string, b: string)
    requires AllHexDigits(a) && AllHexDigits(b)
    ensures AllHexDigits(a + b)
    ensures HexValue(a + b) == HexValue(a) * Pow16(|b|) + HexValue(b)
  {
    assert AllHexDigits(a + b) by {
      forall i | 0 <= i < |a + b| ensures IsHexDigit((a + b)[i]) {
        if i >= |a| { assert (a + b)[i] == b[i - |a|]; }
      }
    }
    if b == [] {
      assert a + b == a;
    } else {
      var init := b[..|b| - 1];
      assert AllHexDigits(init) by {
        forall i | 0 <= i < |init| ensures IsHexDigit(init[i]) {
          assert init[i] == b[i];
        }
      }
      assert (a + b)[..|a + b| - 1] == a + init;
      HexValueAppend(a, init);
      var d := HexDigitValue(b[|b| - 1]).value;
      assert HexValue(a + b) == HexValue(a + init) * 16 + d;
      assert HexValue(b) == HexValue(init) * 16 + d;
      ShiftDigit(HexValue(a), Pow16(|init|), HexValue(init), d);
    }
  }

  /** Appending one digit to a two-part number. */
  lemma ShiftDigit(x: nat, p: nat, y: nat, d: nat)
    ensures (x * p + y) * 16 + d == x * (16 * p) + (y * 16 + d)
  {
  }

  /** Splitting a number below 2^24 into its three bytes. */
  lemma SplitBytes(r: Byte, g: Byte, b: Byte)
    ensures var color := r * 0x1_0000 + g * 0x100 + b;
            && color % 0x100 == b
            && (color / 0x100) % 0x100 == g
            && (color / 0x1_0000) % 0x100 == r
  {
    var color := r * 0x1_0000 + g * 0x100 + b;
    assert color == (r * 0x100 + g) * 0x100 + b;
    assert color / 0x100 == r * 0x100 + g;
    assert color / 0x1_0000 == r;
  }

  /** The value of six digits, read as three two-digit bytes. */
  lemma SixDigits(t: string)
    requires |t| == 6 && AllHexDigits(t)
    ensures AllHexDigits(t[0..2]) && AllHexDigits(t[2..4]) && AllHexDigits(t[4..6])
    ensures HexValue(t) == HexValue(t[0..2]) * 0x1_0000 + HexValue(t[2..4]) * 0x100 + HexValue(t[4..6])
    ensures HexValue(t[0..2]) < 0x100 && HexValue(t[2..4]) < 0x100 && HexValue(t[4..6]) < 0x100
  {
    var a, b, c := t[0..2], t[2..4], t[4..6];
    SliceHex(t, 0, 2);
    SliceHex(t, 2, 4);
    SliceHex(t, 4, 6);
    ThreeBytes(a, b, c);
    assert HexValue(t) == HexValue(a + b + c) by {
      assert t == a + b + c;
    }
  }

  lemma SliceHex(t: string, i: nat, j: nat)
    requires AllHexDigits(t) && i <= j <= |t|
    ensures AllHexDigits(t[i..j])
  {
    forall k | 0 <= k < j - i ensures IsHexDigit(t[i..j][k]) {
      assert t[i..j][k] == t[i + k];
    }
  }

  lemma ThreeBytes(a: string, b: string, c: string)
    requires |a| == 2 && |b| == 2 && |c| == 2
    requires AllHexDigits(a) && AllHexDigits(b) && AllHexDigits(c)
    ensures AllHexDigits(a + b + c)
    ensures HexValue(a + b + c) == HexValue(a) * 0x1_0000 + HexValue(b) * 0x100 + HexValue(c)
    ensures HexValue(a) < 0x100 && HexValue(b) < 0x100 && HexValue(c) < 0x100
  {
    assert Pow16(2) == 0x100 by { assert Pow16(1) == 16; }
    HexValueAppend(a, b);
    var ab := a + b;
    var x := HexValue(ab);
    assert x == HexValue(a) * 0x100 + HexValue(b);
    HexValueAppend(ab, c);
    assert HexValue(ab + c) == x * 0x100 + HexValue(c);
    AccumulateAllHex(a);
    AccumulateAllHex(b);
    AccumulateAllHex(c);
  }

  // ---------------------------------------------------------------------
  // Properties of the parser and the printer.
  // ---------------------------------------------------------------------

  /** `0x` followed by six hex digits of either case parses to the colour
      whose red, green and blue bytes are digits 1-2, 3-4 and 5-6. */
  lemma ParseSixDigits(s: string)
    requires |s| == 8 && s[..2] == "0x" && AllHexDigits(s[2..])
    ensures AllHexDigits(s[2..4]) && AllHexDigits(s[4..6]) && AllHexDigits(s[6..8])
    ensures HexValue(s[2..4]) < 0x100 && HexValue(s[4..6]) < 0x100 && HexValue(s[6..8]) < 0x100
    ensures ParseRgb(s) == Some(Rgb(HexValue(s[2..4]), HexValue(s[4..6]), HexValue(s[6..8])))
  {
    var t := s[2..];
    SixDigits(t);
    assert t[0..2] == s[2..4] && t[2..4] == s[4..6] && t[4..6] == s[6..8];
    assert IsAscii(s) by {
      forall i | 0 <= i < |s| ensures s[i] as int < 0x80 {
        if i >= 2 { assert s[i] == t[i - 2]; assert IsHexDigit(t[i - 2]); }
        else { assert s[i] == s[..2][i]; }
      }
    }
    Utf8LenOfAscii(s);
    AccumulateAllHex(t);
    assert t[0] != '+' && t[0] != '-' by { assert IsHexDigit(t[0]); }
    SplitBytes(HexValue(t[0..2]), HexValue(t[2..4]), HexValue(t[4..6]));
  }

  /** Printing then parsing gives back the colour. */
  lemma ParseShowRoundTrip(c: Rgb)
    ensures ParseRgb(ShowRgb(c)) == Some(c)
  {
    var s := ShowRgb(c);
    assert s[2..] == Hex2(c.r) + Hex2(c.g) + Hex2(c.b);
    assert s[2..4] == Hex2(c.r) && s[4..6] == Hex2(c.g) && s[6..8] == Hex2(c.b);
    assert AllHexDigits(s[2..]) by {
      forall i | 0 <= i < 6 ensures IsHexDigit(s[2..][i]) {
        assert s[2..][i] == s[i + 2];
      }
    }
    ParseSixDigits(s);
  }

  /** Parsing then printing gives the input with its digits lowercased, so
      the printer is the parser's inverse on six-digit texts. */
  lemma ShowParseRoundTrip(s: string)
    requires |s| == 8 && s[..2] == "0x" && AllHexDigits(s[2..])
    ensures ParseRgb(s).Some?
    ensures ShowRgb(ParseRgb(s).value) == "0x" + ToLowerString(s[2..])
  {
    ParseSixDigits(s);
    var c := ParseRgb(s).value;
    var r, g, b := s[2..4], s[4..6], s[6..8];
    PairToLower(r);
    PairToLower(g);
    PairToLower(b);
    var lower := ToLowerString(s[2..]);
    assert lower == [ToLower(r[0]), ToLower(r[1])] + [ToLower(g[0]), ToLower(g[1])] + [ToLower(b[0]), ToLower(b[1])];
  }

  /** Reprinting a two-digit byte lowercases its digits. */
  lemma PairToLower(pair: string)
    requires |pair| == 2 && AllHexDigits(pair)
    ensures HexValue(pair) < 0x100
    ensures Hex2(HexValue(pair)) == [ToLower(pair[0]), ToLower(pair[1])]
  {
    assert pair[..1] == [pair[0]] && [pair[0]][..0] == [];
    var hi := HexDigitValue(pair[0]).value;
    var lo := HexDigitValue(pair[1]).value;
    assert HexValue(pair[..1]) == hi;
    assert HexValue(pair) == hi * 16 + lo;
    assert HexValue(pair) / 16 == hi && HexValue(pair) % 16 == lo;
    LowerOfDigit(pair[0]);
    LowerOfDigit(pair[1]);
  }

  /** The lowercase digit with the same value is the character's lowercase. */
  lemma LowerOfDigit(ch: char)
    requires IsHexDigit(ch)
    ensures LowerHexDigit(HexDigitValue(ch).value) == ToLower(ch)
  {
  }

  /** Exactly the texts `0x` + six hex digits, and `0x+` + five hex digits,
      parse; everything else, every other length included, is rejected. */
  lemma ParseAcceptsExactly(s: string)
    ensures ParseRgb(s).Some? <==> AcceptedColorText(s)
  {
    if |s| >= 2 && s[..2] == "0x" {
      var t := s[2..];
      if ParseRgb(s).Some? {
        assert Utf8Len(s) == 8;
        var digits := if t[0] == '+' then t[1..] else t;
        if !AllHexDigits(digits) {
          AccumulateRejectsNonHex(digits);
          assert false;
        }
        assert IsAscii(s) by {
          forall i | 0 <= i < |s| ensures s[i] as int < 0x80 {
            if i < 2 { assert s[i] == s[..2][i]; }
            else if t[0] == '+' && i == 2 { assert s[i] == t[0]; }
            else if t[0] == '+' { assert s[i] == digits[i - 3]; assert IsHexDigit(digits[i - 3]); }
            else { assert s[i] == digits[i - 2]; assert IsHexDigit(digits[i - 2]); }
          }
        }
        Utf8LenOfAscii(s);
        if t[0] == '+' { assert s[3..] == digits; } else { assert s[2..] == digits; }
      } else if AcceptedColorText(s) {
        if AllHexDigits(t) {
          ParseSixDigits(s);
        } else {
          assert s[3..] == t[1..];
          assert IsAscii(s) by {
            forall i | 0 <= i < |s| ensures s[i] as int < 0x80 {
              if i < 2 { assert s[i] == s[..2][i]; }
              else if i > 2 { assert s[i] == s[3..][i - 3]; assert IsHexDigit(s[3..][i - 3]); }
            }
          }
          Utf8LenOfAscii(s);
          AccumulateAllHex(t[1..]);
          assert false;
        }
      }
    }
  }

  /** The leading `+` that `u32::from_str_radix` tolerates: `0x+12345` is
      read as `0x012345`. */
  lemma PlusSignAccepted()
    ensures ParseRgb("0x+12345") == Some(Rgb(0x01, 0x23, 0x45))
  {
    var s := "0x+12345";
    assert s[..2] == "0x" && s[2..] == "+12345" && s[3..] == "12345";
    assert Utf8Len(s) == 8 by {
      assert IsAscii(s);
      Utf8LenOfAscii(s);
    }
    FiveDigits();
    assert FromStrRadix16("+12345") == Some(0x12345);
  }

  lemma FiveDigits()
    ensures AllHexDigits("12345")
    ensures AccumulateHex("12345") == Some(0x12345)
  {
    var t := "12345";
    assert AllHexDigits(t);
    AccumulateAllHex(t);
    assert t[..4] == "1234" && "1234"[..3] == "123" && "123"[..2] == "12" && "12"[..1] == "1" && "1"[..0] == "";
    assert HexValue("1") == 1;
    assert HexValue("12") == 0x12;
    assert HexValue("123") == 0x123;
    assert HexValue("1234") == 0x1234;
  }
}
