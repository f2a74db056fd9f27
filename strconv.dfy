/**
 * `strconv.ParseInt(s, 0, 64)` as the parser calls it for integer tokens:
 * an optional sign, base detection from the prefix (`0x`, `0o`, `0b`, or a
 * bare leading `0` for octal, otherwise decimal), `_` digit separators as
 * Go's integer literal syntax places them, and the int64 range check.
 */
module Strconv {
  import opened Wrappers
  import opened GoInt
  import Text

  /** The value of a digit in bases up to 36, or 36 for a character that is no digit. */
  function DigitValue(c: char): (d: nat)
    ensures d <= 36
  {
    if '0' <= c <= '9' then c as int - '0' as int
    else if 'a' <= c <= 'z' then c as int - 'a' as int + 10
    else if 'A' <= c <= 'Z' then c as int - 'A' as int + 10
    else 36
  }

  /**
   * Accumulates digits left to right, skipping the `_` separators that base 0
   * allows; None at a character that is no digit of the base.
   */
  function ParseDigits(s: string, base: nat): Option<nat>
    requires 2 <= base <= 36
  {
    if s == [] then Some(0)
    else
      match ParseDigits(s[..|s| - 1], base)
      case None => None
      case Some(v) =>
        var c := s[|s| - 1];
        if c == '_' then Some(v)
        else if DigitValue(c) < base then Some(Shift(v, base, DigitValue(c)))
        else None
  }

  /** One more digit on the right of a numeral's value. */
  function Shift(v: nat, base: nat, d: nat): nat
  {
    v * base + d
  }

  /** Every character is a digit of the base or a separator. */
  predicate AllDigits(s: string, base: nat)
  {
    forall i :: 0 <= i < |s| ==> s[i] == '_' || DigitValue(s[i]) < base
  }

  /** The digit scan fails exactly at a character that is neither a digit of the base nor `_`. */
  lemma {:induction false} ParseDigitsAccepts(s: string, base: nat)
    requires 2 <= base <= 36
    ensures ParseDigits(s, base).Some? <==> AllDigits(s, base)
  {
    if s != [] {
      var init := s[..|s| - 1];
      ParseDigitsAccepts(init, base);
      assert forall i :: 0 <= i < |init| ==> init[i] == s[i];
      if AllDigits(s, base) {
        assert AllDigits(init, base);
      }
      if AllDigits(init, base) && (s[|s| - 1] == '_' || DigitValue(s[|s| - 1]) < base) {
        assert AllDigits(s, base) by {
          forall i | 0 <= i < |s| ensures s[i] == '_' || DigitValue(s[i]) < base {
            if i < |init| { assert s[i] == init[i]; }
          }
        }
      }
    }
  }

  /**
   * Where base 0 allows `_`: each one stands between two digits, or right
   * after the base prefix (or the leading `0` of an octal numeral) and before
   * a digit. `digits` is the numeral after that prefix, and `prefixed` says
   * whether a prefix stands before it. A separator that is followed by a
   * digit is also preceded by one unless it comes first, so it is enough to
   * look at the first character and at what follows each separator.
   */
  predicate SeparatorsOK(digits: string, prefixed: bool)
  {
    (|digits| > 0 && digits[0] == '_' ==> prefixed)
    && forall i :: 0 <= i < |digits| && digits[i] == '_' ==> i + 1 < |digits| && digits[i + 1] != '_'
  }

  /** The digits after the base prefix: their value, provided every digit and every separator is valid. */
  function Digits(digits: string, base: nat, prefixed: bool): (r: Option<nat>)
    requires 2 <= base <= 36
    ensures r.Some? <==> ParseDigits(digits, base).Some? && SeparatorsOK(digits, prefixed)
    ensures r.Some? ==> r == ParseDigits(digits, base)
  {
    if SeparatorsOK(digits, prefixed) then ParseDigits(digits, base) else None
  }

  /**
   * `strconv.ParseUint(s, 0, 64)` before its range check; `s` is not empty.
   * `0x`, `0o` and `0b` (either case) choose base 16, 8 and 2 when a digit
   * can follow; any other leading `0` means octal; otherwise decimal.
   */
  function ParseUnsignedBase0(s: string): (r: Option<nat>)
    requires |s| > 0
    ensures s[0] != '0' ==> r == Digits(s, 10, false)
    ensures s == "0" ==> r == Some(0)
  {
    if s[0] != '0' then Digits(s, 10, false)
    else if |s| >= 3 && (s[1] == 'x' || s[1] == 'X') then Digits(s[2..], 16, true)
    else if |s| >= 3 && (s[1] == 'o' || s[1] == 'O') then Digits(s[2..], 8, true)
    else if |s| >= 3 && (s[1] == 'b' || s[1] == 'B') then Digits(s[2..], 2, true)
    else Digits(s[1..], 8, true)
  }

  /**
   * `strconv.ParseInt(s, 0, 64)`: Some(value), or None where Go returns an
   * error (a syntax error or a value outside int64).
   */
  function ParseInt(s: string): (r: Option<Int64>)
    ensures s == [] ==> r == None
    ensures s == "-" || s == "+" ==> r == None
  {
    if s == [] then None
    else
      var neg := s[0] == '-';
      var body := if s[0] == '+' || s[0] == '-' then s[1..] else s;
      if body == [] then None
      else
        match ParseUnsignedBase0(body)
        case None => None
        case Some(u) =>
          if neg then (if u <= TWO_63 then Some(-(u as int)) else None)
          else (if u < TWO_63 then Some(u) else None)
  }

  /** Reading back the decimal digits of n gives n. */
  lemma {:induction false} DecimalRoundTrip(n: nat)
    ensures ParseDigits(Text.NatToString(n), 10) == Some(n)
  {
    var s := Text.NatToString(n);
    if n >= 10 {
      DecimalRoundTrip(n / 10);
      assert s[..|s| - 1] == Text.NatToString(n / 10);
      assert s[|s| - 1] != '_';
      assert DigitValue(s[|s| - 1]) == n % 10 by { DigitCharValue(n % 10); }
      assert (n / 10) * 10 + n % 10 == n;
    } else {
      assert s[..0] == [];
      DigitCharValue(n);
    }
  }

  lemma DigitCharValue(d: nat)
    requires d < 10
    ensures DigitValue(Text.DigitChar(d)) == d
  {
  }

  /**
   * `%d` and base-0 parsing agree on every int64: the decimal rendering of an
   * integer never has a leading zero, so it is never read as octal.
   */
  lemma FormatThenParse(n: Int64)
    ensures ParseInt(Text.IntToString(n)) == Some(n)
  {
    var s := Text.IntToString(n);
    if n < 0 {
      var m: nat := -(n as int);
      var digits := Text.NatToString(m);
      assert s == "-" + digits;
      assert s[0] == '-' && s[1..] == digits;
      UnsignedDecimal(m);
      assert ParseUnsignedBase0(s[1..]) == Some(m) && m <= TWO_63;
    } else {
      assert s == Text.NatToString(n);
      assert s[0] != '+' && s[0] != '-';
      UnsignedDecimal(n);
      assert ParseUnsignedBase0(s) == Some(n as nat) && n < TWO_63;
    }
  }

  /** Base-0 reading of the decimal digits of m is m itself. */
  lemma UnsignedDecimal(m: nat)
    ensures ParseUnsignedBase0(Text.NatToString(m)) == Some(m)
  {
    var digits := Text.NatToString(m);
    DecimalRoundTrip(m);
    if digits[0] == '0' {
      assert |digits| == 1;
      assert m == 0;
      assert digits[1..] == [];
    }
  }

  /** A literal and its value's decimal form may differ: base 0 reads `0x10` as 16 and `010` as 8. */
  lemma BasePrefixes()
    ensures ParseInt("0x10") == Some(16)
    ensures ParseInt("010") == Some(8)
    ensures ParseInt("0b101") == Some(5)
    ensures ParseInt("5") == Some(5)
    ensures ParseInt("09") == None
    ensures ParseInt("12a") == None
  {
    HexPrefix();
    OctalZero();
    BinaryPrefix();
    assert "5"[..0] == "";
    NotDigits();
  }

  lemma NotDigits()
    ensures ParseUnsignedBase0("09") == None
    ensures ParseUnsignedBase0("12a") == None
  {
    assert "09"[1..] == "9" && "9"[..0] == "";
    assert "12a"[..2] == "12" && "12"[..1] == "1";
  }

  lemma HexPrefix()
    ensures ParseUnsignedBase0("0x10") == Some(16)
  {
    assert "0x10"[2..] == "10" && "10"[..1] == "1" && "1"[..0] == "";
    assert ParseDigits("1", 16) == Some(1);
  }

  lemma OctalZero()
    ensures ParseUnsignedBase0("010") == Some(8)
  {
    assert "010"[1..] == "10" && "10"[..1] == "1" && "1"[..0] == "";
    assert ParseDigits("1", 8) == Some(1);
  }

  lemma BinaryPrefix()
    ensures ParseUnsignedBase0("0b101") == Some(5)
  {
    assert "0b101"[2..] == "101" && "101"[..2] == "10" && "10"[..1] == "1" && "1"[..0] == "";
    assert ParseDigits("1", 2) == Some(1);
    assert ParseDigits("10", 2) == Some(2);
  }

  /** Base 0 takes `_` between digits and after a prefix. */
  lemma Separators()
    ensures ParseInt("1_000") == Some(1000)
    ensures ParseInt("0x_1f") == Some(31)
    ensures ParseInt("0_7") == Some(7)
  {
    SeparatedThousand();
    SeparatedHex();
    SeparatedOctal();
  }

  lemma SeparatedThousand()
    ensures ParseUnsignedBase0("1_000") == Some(1000)
  {
    assert "1_000"[..4] == "1_00" && "1_00"[..3] == "1_0" && "1_0"[..2] == "1_" && "1_"[..1] == "1" && "1"[..0] == "";
    assert ParseDigits("1_", 10) == Some(1);
    assert ParseDigits("1_0", 10) == Some(10);
    assert ParseDigits("1_00", 10) == Some(100);
    assert SeparatorsOK("1_000", false) by {
      forall i | 0 <= i < 5 && "1_000"[i] == '_' ensures i == 1 { }
    }
  }

  lemma SeparatedHex()
    ensures ParseUnsignedBase0("0x_1f") == Some(31)
  {
    assert "0x_1f"[2..] == "_1f" && "_1f"[..2] == "_1" && "_1"[..1] == "_" && "_"[..0] == "";
    assert ParseDigits("_1", 16) == Some(1);
    assert SeparatorsOK("_1f", true) by {
      forall i | 0 <= i < 3 && "_1f"[i] == '_' ensures i == 0 { }
    }
  }

  lemma SeparatedOctal()
    ensures ParseUnsignedBase0("0_7") == Some(7)
  {
    assert "0_7"[1..] == "_7" && "_7"[..1] == "_" && "_"[..0] == "";
    assert ParseDigits("_7", 8) == Some(7);
    assert SeparatorsOK("_7", true) by {
      forall i | 0 <= i < 2 && "_7"[i] == '_' ensures i == 0 { }
    }
  }

  /** Anywhere else a separator makes the numeral invalid: doubled, leading or trailing. */
  lemma MisplacedSeparators()
    ensures ParseInt("1__0") == None
    ensures ParseInt("_1") == None
    ensures ParseInt("1_") == None
  {
    assert !SeparatorsOK("1__0", false) by { assert "1__0"[1] == '_' && "1__0"[2] == '_'; }
    LeadingSeparator("_1");
    assert !SeparatorsOK("1_", false) by { assert "1_"[1] == '_'; }
  }

  /** Without a prefix before it, a numeral cannot start with a separator. */
  lemma LeadingSeparator(digits: string)
    requires |digits| > 0 && digits[0] == '_'
    ensures !SeparatorsOK(digits, false)
  {
    assert digits[0] == '_';
  }

  /** An unsigned decimal at or beyond 2^63 is out of int64 range, so parsing fails. */
  lemma OutOfRange(n: nat)
    requires n >= TWO_63
    ensures ParseInt(Text.NatToString(n)) == None
  {
    DecimalRoundTrip(n);
    var s := Text.NatToString(n);
    assert s[0] != '0';
  }
}
